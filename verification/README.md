# Keepup: a verified model of its core

Keepup watches Docker containers, Linux hosts and Proxmox servers for updates and applies them over SSH
and over the Portainer and Proxmox APIs. This project models the parts of it that hold protocols, durable
state, printers and parsers, and proves what they promise. `dafny verify dfyconfig.toml` checks all of it.

| module | models | main results |
|---|---|---|
| `StandaloneUpdate` | replacing a container: pull, rename aside, stop, run, settle, verify, drop or roll back | from every state of the host, the original survives every prefix of every run, exactly when it was not started with `--rm` (or is Keepup itself, which is refused) |
| `ActivityIndex`, `ActivityLog`, `ImportRuns`, `EmptyImport`, `ImportFailures` | the index and output files of recorded runs, under concurrent writers, readers, a legacy import, crashes, clock changes and failing saves | while saving and retiring the import succeed: no output file is missing, files go only when due, no run and no imported entry is lost, nothing is imported twice without a crash. When they may fail, each of these holds exactly on the stores with nothing to import |
| `Redaction` | masking of stored credentials | a secret is gone from every line exactly when no star stands at its ends and no three stars inside it |
| `ShellQuoting`, `Doubles`, `FlagNumbers`, `DockerRun` | the rebuilt `docker run` command, its numbers printed through doubles, and the shells it passes through | what Docker reads is what `docker inspect` said, flag by flag; each number exactly where a double can tell |
| `UpdateNotifier` | deduplicated notifications and the tracker of failing checks | what a notification means, as a statement over whole histories |
| `Slugs`, `ProxmoxConfig` | several Proxmox servers, and the migration to them | ids and stamps stay consistent over any run; the migration preserves what everyone resolves to, exactly when the new credential key is clear |
| `ContainerRefs` | references to containers | round trips, exactly when the project name has no `:` and no leading `~` |
| `KernelReboot` | next-boot kernel against running kernel | the SSH decision and the API heuristic agree |
| `AptParsers`, `AptOutput` | two parsers of apt output | each returns one package per row of the whole output, judged by its simulations; they agree exactly when no row starts like apt's heading |
| `RateLimit` | login lockout and admin mutation limit | at most five failures and thirty mutations per window |
| `Coverage` | which backend checks which container | every container is an SSH entry or belongs to a listed stack; it is really checked exactly when such a stack is on its own endpoint |
| `Options`, `Text` | optional values; decimals, cutting, trimming and splitting of text | helpers |

Code that changes state step by step is written that way: `DockerHost`, `Notifier`, `ConfigManager`,
`LoginLimiter` and `MutationLimiter` are classes whose methods are proved against specification functions,
and loops are loops with invariants. The concurrent activity log is a state machine whose every step is one
file-system effect.

Places where a promise one might expect is false of the code, each with a counterexample and the exact
condition under which the promise holds:

- An original started with `--rm` can vanish, and is deleted by the `docker stop` that follows the rename,
  before a replacement exists (`StopDeletesAutoRemoved`, `SafeExactlyWithoutAutoRemove`).
- If saving the imported index, or renaming its source, fails and the caller goes on, a recorded run can
  vanish from the index, an imported entry can vanish with its source already retired, an entry can be imported
  twice, and a committed record can lose its output file. Each of these can happen to every store that holds a
  legacy entry and to no other (`NoneMissingExactly`, `EntriesKeptExactly`, `ImportedOnceExactly`,
  `OutputKeptExactly`, `RemovesOnlyDueExactly`, with the runs that show it).
- `--cpus` and the health-check timings are printed through a double. They denote the original integers
  exactly when that double is near enough (`CpusExactly`, `DurationExactly`): always below 2^23 CPUs and below
  2^53 nanoseconds, not always above (`CpusInexactAbove`, `DurationLosesANanosecond`).
- A custom seccomp profile and an environment variable without a value do not come back: Docker's client reads
  the first as a file name and fills in the second from its own environment (`SecurityRecovered`,
  `EnvRecovered`).
- A Proxmox migration interrupted between saving the configuration and renaming the credentials leaves the
  stamped hosts without them, for good (`InterruptedMigration`, `InterruptedForGood`).
- The recreated process is not always `Entrypoint ++ Cmd`: an entrypoint that was cleared comes back as the
  image's own, and one whose first word is empty loses that word (`ProcessReproducedExactly`).
- The SSH backend leaves a project to Portainer by stack id and name, without looking at the endpoint. A
  project claimed by a stack of another endpoint is checked by nobody (`ClaimedFromElsewhere`,
  `CheckedExactly`).

Two further observations. `update_host` rebuilds a host without its Proxmox fields
(`app/config_manager.py:123-139`), and the model follows it. The migration takes the derived id as it is, without the reserved-word
check that `add_proxmox_server` makes, so it can produce the id `new`.

## Model

| member | source | states |
|---|---|---|
| `StandaloneUpdate.OriginalNeverLost` | app/backends/ssh_docker_backend.py:619-716 | at every prefix of every run, with any replies and the connection lost anywhere, the container first inspected still exists under its own or the backup name, unless the backup's `rm` was sent after `run` succeeded and verify read running with no restarts |
| `StandaloneUpdate.ForceRemoveSparesOriginal` | app/backends/ssh_docker_backend.py:695-700 | when the rollback's `rm -f name` is about to run, that name does not belong to the original |
| `StandaloneUpdate.RollbackRestores` | app/backends/ssh_docker_backend.py:695-707 | a rollback whose rename and start succeed ends with the original running under its own name and the backup name free |
| `StandaloneUpdate.UpdatedMeansReplaced` | app/backends/ssh_docker_backend.py:683-716 | a normal return means the verified replacement owns the name, and the original is removed or parked under the backup name |
| `StandaloneUpdate.VerifyDecides` | app/backends/ssh_docker_backend.py:668-713 | in every run, a verifying read of running with zero restarts leads to the drop of the backup, any other read to the rollback |
| `StandaloneUpdate.ReadingIsTaken` | app/backends/ssh_docker_backend.py:676-688 | the read is of the container under the name, and is the one acted on |
| `StandaloneUpdate.UpdateCanSucceed` | app/backends/ssh_docker_backend.py:611-716 | from every host with a foreign container under the name and the backup name free, the update can end with a new running container under the name, no backup, and everything else as before |
| `StandaloneUpdate.RefusalEnds` | app/backends/ssh_docker_backend.py:619-706 | a refused inspect, pull or rename-aside ends the update with the host untouched; no later refusal ends it |
| `StandaloneUpdate.RefusedRenameChangesNothing` | app/backends/ssh_docker_backend.py:619-660 | up to and including a refused rename-aside, no command changed the host |
| `StandaloneUpdate.StopDeletesAutoRemoved` | app/backends/ssh_docker_backend.py:643-662 | a run in which an original started with `--rm` is gone before a replacement was tried |
| `StandaloneUpdate.AutoRemovedCanVanish` | app/backends/ssh_docker_backend.py:611-660 | from every state of the host with such an original, a leftover backup included, a run in which it is gone after the inspect |
| `StandaloneUpdate.SafeExactlyWithoutAutoRemove` | app/backends/ssh_docker_backend.py:611-716 | from every state of the host, every run preserves the original if and only if it was not started with `--rm`, or is Keepup's own container |
| `StandaloneUpdate.StopLosesOriginal` | app/backends/ssh_docker_backend.py:643-662 | on a host that never removes the original by itself, the update alone loses one started with `--rm`, if the backup name can be free |
| `StandaloneUpdate.LosesExactly` | app/backends/ssh_docker_backend.py:611-716 | on such a host the update can lose the original if and only if it was started with `--rm`, is not Keepup's own, and the backup name can be free at the rename |
| `StandaloneUpdate.RunKeepsInv` | app/backends/ssh_docker_backend.py:611-716 | every command, whatever its reply, and every drift of the host keep the invariant that places the original and the replacement at each stage |
| `StandaloneUpdate.DockerHost.Update` | app/backends/ssh_docker_backend.py:611-716 | the imperative update is a run of the protocol that ends with the returned outcome; all its prefixes preserve the original; a healthy read means updated and any other rolled back, unless the connection is lost |
| `ActivityIndex.SelectKept` | app/activity_log.py:256-276 | the one-pass selection equals its specification and splits the index: kept and dropped together are the entries, as multisets |
| `ActivityIndex.SplitsIndex` | app/activity_log.py:256-276 | nothing is invented or lost by pruning, and at most 500 entries stay |
| `ActivityIndex.InsertedIsKept` | app/activity_log.py:256-276 | the record just inserted survives its own commit, whatever its timestamp |
| `ActivityIndex.KeptExactly` | app/activity_log.py:256-276 | kept, in order, are exactly the first 500 entries that are the protected one, or have no readable timestamp, or are at most 90 days old |
| `ActivityIndex.FreshIndexIsKept` | app/activity_log.py:256-276 | an index of at most 500 entries, none older than 90 days, is kept whole |
| `ActivityIndex.DroppedOnlyByRule` | app/activity_log.py:256-276 | a record is dropped only from position 500 on or, unless protected, with a readable timestamp more than 90 days old |
| `ActivityIndex.KeptIdsLeaveDroppedIds` | app/activity_log.py:394-400 | ids of kept and dropped records are disjoint, so deleting dropped output cannot hit a kept record |
| `ActivityIndex.WriteOutput` | app/activity_log.py:176-193 | the stored text and line count of an output, embedded newlines flattened |
| `ActivityIndex.OutputReadsBack` | app/activity_log.py:429-437 | the stored output reads back line for line if and only if it is not the single empty line and holds no carriage return |
| `ActivityLog.NextKeepsInv` | app/activity_log.py:357-404 | every step of every writer, reader and importer, every crash and every clock change keeps the store's invariant, as long as the save and the rename of an import succeed |
| `ImportFailures.NextKeepsInvExactly` | app/activity_log.py:111-124 | of all steps, failures included, exactly the failed saves and renames break that invariant |
| `ActivityLog.CommittedOutputIsOnDisk` | app/activity_log.py:374-401 | in every interleaving and after every crash, with successful saves and renames of the import, a committed record with lines has its output file |
| `ActivityLog.NothingIsLost` | app/activity_log.py:63-124 | the index holds exactly the recorded and imported runs no commit pruned, once each; a retired legacy log was imported completely, a present one is untouched |
| `ActivityLog.ImportsHappenOnce` | app/activity_log.py:72-124 | without a crash and with successful renames no legacy entry is imported twice, although readers import without the writers' lock |
| `ImportFailures.CrashCanRepeatAnImport` | app/activity_log.py:111-124 | on every store with a legacy entry, a crash between the index save and the rename repeats the import, and still nothing is missing |
| `ActivityLog.FilesGoOnlyWhenDue` | app/activity_log.py:196-238 | with successful saves and renames of the import, an output file disappears only when its record was pruned or it is an unindexed file older than the cutoff |
| `ActivityLog.CutoffIsListingTime` | app/activity_log.py:216-238 | the cutoff of a sweep is 90 days before the moment its thread listed the files |
| `ActivityLog.OrphansAreOld` | app/activity_log.py:216-238 | an output file that goes without having been pruned was more than 90 days old when the files were listed |
| `ActivityLog.OrphanCanGo` | app/activity_log.py:216-238 | and such a file can be removed by the sweep that lists it |
| `ActivityLog.SweepListsOrphans` | app/activity_log.py:216-238 | a sweep lists exactly the files without a record in the new index |
| `ImportFailures.FailedImportCanLoseARun` | app/activity_log.py:111-124 | on every store with a legacy entry, a run with a failed save of the import in which a recorded run is neither indexed nor pruned |
| `ImportFailures.NoneMissingExactly` | app/activity_log.py:63-124 | for every starting store, all runs with failing saves and renames keep every recorded run if and only if the legacy log is absent or empty |
| `EmptyImport.RefinesFaultless` | app/activity_log.py:111-124 | on a store with nothing to import, every run with failing saves and renames refines to a run without failures: same index, files and history |
| `ImportFailures.FailedImportCanLoseTheEntries` | app/activity_log.py:395-398 | on every store with a legacy entry, a run in which a writer's stale commit drops the imported entries after their source was retired |
| `ImportFailures.EntriesKeptExactly` | app/activity_log.py:63-124 | for every starting store, with failing saves and renames, every retired legacy entry stays in the index until pruned if and only if the legacy log is absent or empty |
| `ImportFailures.FailedRenameRepeatsAnImport` | app/activity_log.py:121-124 | on every store with a legacy entry, a failed rename makes the next reader import it again, without a crash |
| `ImportFailures.ImportedOnceExactly` | app/activity_log.py:63-124 | for every starting store, with failing saves and renames and no crash, no entry is imported twice if and only if the legacy log is absent or empty |
| `ImportFailures.FailedImportCanLoseOutput` | app/activity_log.py:398-400 | on every store with a legacy entry, a run in which a reader's save brings back a pruned record and the commit then removes its output |
| `ImportFailures.OutputKeptExactly` | app/activity_log.py:374-401 | for every starting store, with failing saves and renames, every committed record with lines has its output file if and only if the legacy log is absent or empty |
| `ImportFailures.RemovesOnlyDueExactly` | app/activity_log.py:196-238 | and output files disappear only when due if and only if it is absent or empty |
| `Redaction.Redact` | app/activity_log.py:323-349 | line by line replacement, unchanged when the store cannot be read; no sturdy secret occurs in any output line |
| `Redaction.NoSecretSurvives` | app/activity_log.py:323-349 | for every line, order and set of secrets, a sturdy secret (in particular one without `*`), and any text containing it, is gone |
| `Redaction.RedactCreatesNothing` | app/activity_log.py:336-349 | sturdy text in the result was in the line and is no secret: a later replacement never recreates an earlier secret |
| `Redaction.AloneSafeExactly` | app/activity_log.py:336-349 | a secret is masked out of every line if and only if it neither starts nor ends with a star nor contains three in a row |
| `Redaction.StoredCredentialIsMasked` | app/activity_log.py:307-349 | every stored value of eight or more characters under a field hinting at a secret is masked |
| `Redaction.SecretValuesExactly` | app/activity_log.py:307-320 | the values to mask are exactly those of eight or more characters under a field naming, in any case, a password, token, secret, api_key, user_key or passphrase |
| `Redaction.StarredSecretCanSurvive` | app/activity_log.py:336-349 | two secrets, one with stars, where masking the second assembles the first |
| `Redaction.CleanLineUnchanged` | app/activity_log.py:336-349 | a line containing no secret is unchanged |
| `Redaction.SecretMaskedWhole` | app/activity_log.py:336-349 | longest first, a secret that contains others becomes exactly one mask |
| `Redaction.DelimitedSecretMasked` | app/activity_log.py:336-349 | between two characters no secret contains, a secret becomes the mask and its surroundings are redacted independently |
| `Redaction.ShortestFirstLeavesATail` | app/activity_log.py:336-349 | the opposite order leaves part of a secret in the clear |
| `ShellQuoting.ShellReadsArgv` | app/backends/ssh_docker_backend.py:1117 | for all argument vectors, the shell's splitting of the joined quoted command returns the vector |
| `ShellQuoting.ShellReadsRedirectedArgv` | app/backends/ssh_docker_backend.py:664-667 | the same with the appended `2>&1`, which is no argument |
| `ShellQuoting.ShellRunsArgv` | app/backends/ssh_docker_backend.py:1117 | the shell runs exactly the vector, as a command, if and only if its first word is no unquoted assignment or reserved word |
| `ShellQuoting.LayerReadsAs` | app/backends/ssh_docker_backend.py:148-149 | the shell reads `pct exec`, the container's own number, `-- sh -c` and the line as one word; the two sudo layers likewise |
| `ShellQuoting.WrapIsEntered` | app/ssh_client.py:168-178 | by `pct`'s and `sudo`'s own reading of their arguments, a wrapped line enters just that layer and hands it the line |
| `ShellQuoting.ReaderIsStrict` | app/backends/ssh_docker_backend.py:148-149 | the reading shell stops at unquoted operators and expansions and at an open quote |
| `ShellQuoting.LayersAreTransparent` | app/ssh_client.py:168-178 | through any number of layers the line arrives in exactly those containers and users, and runs there as it would directly |
| `ShellQuoting.InnermostSeesArgv` | app/ssh_client.py:168-178 | the innermost program sees the vector Keepup built, in the place Keepup meant, if and only if its first word is no unquoted grammar |
| `FlagNumbers.DurationDenotes` | app/backends/ssh_docker_backend.py:909-917 | for every 64-bit count, the text denotes the nearest second, else the nearest millisecond, wherever a double cannot tell the count from it, else the count |
| `FlagNumbers.DurationExactly` | app/backends/ssh_docker_backend.py:909-917 | for every 64-bit count, Docker gets the original nanoseconds if and only if the count is a whole second or no double confuses it with a coarser unit |
| `FlagNumbers.DurationExactBelow` | app/backends/ssh_docker_backend.py:909-917 | that is so for every duration below 2^53 nanoseconds |
| `FlagNumbers.DurationLosesANanosecond` | app/backends/ssh_docker_backend.py:909-917 | 10^17 + 1 nanoseconds are printed as 10^17 |
| `Doubles.WholeExactly` | app/backends/ssh_docker_backend.py:909-917 | a double quotient equals its integer part if and only if the exact quotient is within half the spacing of doubles of an integer, and then it is the nearest integer |
| `Doubles.SmallIsTold` | app/backends/ssh_docker_backend.py:909-917 | below 2^53 that means the division is exact |
| `FlagNumbers.CpusExactly` | app/backends/ssh_docker_backend.py:992-995 | for every 64-bit count, Docker gets the original nano-CPUs if and only if the double is less than half a billionth off, or half a billionth and the count is even |
| `FlagNumbers.CpusExactBelow` | app/backends/ssh_docker_backend.py:992-995 | that is so for every count below 2^23 CPUs |
| `FlagNumbers.CpusReadBack` | app/backends/ssh_docker_backend.py:992-995 | nine places, stripped of zeros and of the point, denote the billionths they were printed from |
| `FlagNumbers.CpusInexactAbove` | app/backends/ssh_docker_backend.py:992-995 | one nano-CPU above that bound it is not |
| `FlagNumbers.CpusTieGoesToEven` | app/backends/ssh_docker_backend.py:992-995 | two neighbouring counts, both half a billionth off their double, of which only the even one survives |
| `DockerRun.BuildDockerRunCmd` | app/backends/ssh_docker_backend.py:920-1117 | the shell runs the printed line as `docker run`, the flags in order with the texts the code prints, the image and its arguments |
| `DockerRun.DockerReadsParts` | app/backends/ssh_docker_backend.py:920-1117 | Docker's rule (flags up to the first positional) recovers flags, image and arguments if and only if the image does not look like a flag |
| `DockerRun.ReadFlagsCarryInspect` | app/backends/ssh_docker_backend.py:920-1117 | for all 39 flags, the values read are the values printed for that flag, complete and in order; the rows below say what they denote |
| `DockerRun.SettingsRecovered` | app/backends/ssh_docker_backend.py:979-1056 | name, user, working directory, stop signal, pid mode, privileges, binds, tmpfs paths, capabilities, DNS and extra hosts come back as inspect showed them, lists in order |
| `DockerRun.EnvRecovered` | app/backends/ssh_docker_backend.py:1047-1048 | the environment comes back, in order, if and only if every variable in it has a value, whatever Docker's client has in its own |
| `DockerRun.SecurityRecovered` | app/backends/ssh_docker_backend.py:1004-1005 | the security options come back, in order, if and only if none is a custom seccomp profile (or a file of that name holds the very same text) |
| `DockerRun.NameRecovered` | app/backends/ssh_docker_backend.py:920-940 | the name comes back without the slash inspect puts in front |
| `DockerRun.NetworkRecovered` | app/backends/ssh_docker_backend.py:951-971 | the container joins the network its mode names, else a custom one it was attached to, with the addresses pinned there |
| `DockerRun.PortsRecovered` | app/backends/ssh_docker_backend.py:1058-1069 | every published port comes back with host address (IPv6 included, wildcards as none), host port and container port, if and only if the two port texts hold no colon |
| `DockerRun.UlimitsRecovered` | app/backends/ssh_docker_backend.py:999-1001 | every ulimit comes back, negative limits included, if and only if its name holds no equals sign |
| `DockerRun.LoggingRecovered` | app/backends/ssh_docker_backend.py:1093-1099 | a log driver other than the default comes back; so does each option, if and only if its key holds no equals sign |
| `DockerRun.RestartRecovered` | app/backends/ssh_docker_backend.py:941-949 | name and retry limit of the restart policy come back, if and only if the name holds no colon |
| `DockerRun.LimitsRecovered` | app/backends/ssh_docker_backend.py:990-997 | memory and CPU shares denote the original integers, CPUs if and only if a double can tell |
| `DockerRun.HealthTimingsRecovered` | app/backends/ssh_docker_backend.py:1013-1030 | each timing of a health check denotes the original nanoseconds if and only if a double can tell |
| `DockerRun.HealthCheckRecovered` | app/backends/ssh_docker_backend.py:1013-1030 | a shell check comes back as its command, an exec check as its words joined by spaces, `NONE` as switching the check off; retries with a check, nothing without |
| `DockerRun.HostnameRecovered` | app/backends/ssh_docker_backend.py:973-977 | a host name other than the old short id and the name comes back, and so does a named IPC mode |
| `DockerRun.StopTimeoutRecovered` | app/backends/ssh_docker_backend.py:1010-1011 | a stop timeout other than zero comes back |
| `DockerRun.LabelsRecovered` | app/backends/ssh_docker_backend.py:1079-1083 | every label that is not internal comes back, in order, key and value if and only if the key holds no equals sign |
| `DockerRun.SysctlsRecovered` | app/backends/ssh_docker_backend.py:1002-1003 | every sysctl comes back in the same way |
| `DockerRun.OwnLabelsExactly` | app/backends/ssh_docker_backend.py:1079-1083 | the labels printed are exactly those without an internal prefix, as a multiset |
| `DockerRun.OwnLabelsActOneByOne` | app/backends/ssh_docker_backend.py:1079-1083 | and they keep their order |
| `DockerRun.DevicesRecovered` | app/backends/ssh_docker_backend.py:1071-1077 | every mapped device comes back, in order, with both paths and its permissions if and only if neither path holds a colon |
| `DockerRun.MappedDevice` | app/backends/ssh_docker_backend.py:1071-1077 | a device is mapped if and only if it has both paths |
| `DockerRun.MappedDevicesActOneByOne` | app/backends/ssh_docker_backend.py:1071-1077 | and the mapped ones keep their order |
| `DockerRun.ProcessReproducedExactly` | app/backends/ssh_docker_backend.py:1101-1115 | the recreated process is `Entrypoint ++ Cmd` if and only if the entrypoint has a non-empty first word, or is empty like the image's and no image command fills in |
| `DockerRun.RemoteDockerReadsInspect` | app/backends/ssh_docker_backend.py:664-667 | through any stack of shells Docker reads a command carrying the inspect's values |
| `UpdateNotifier.Notifier.CheckAndNotify` | app/update_notifier.py:108-169 | saving only when something changed refines always saving; announcements, rollup and untouched host part as specified |
| `UpdateNotifier.Notifier.ShouldNotifyHost` | app/update_notifier.py:172-197 | notifies on the edge from clean to pending and leaves the image part of the store intact |
| `UpdateNotifier.LoadExactly` | app/update_notifier.py:38-62 | a bare list of the old format is what was notified; an unreadable file counts as nothing |
| `UpdateNotifier.OldListStaysNotified` | app/update_notifier.py:38-62 | a path of an old list is not announced again before a scan has cleared it |
| `UpdateNotifier.ReadStacks` | app/update_notifier.py:114-148 | the pass over the stacks: announcements, set, tracker and change flag |
| `UpdateNotifier.DropRecovered` | app/update_notifier.py:149-153 | tracking is kept exactly for what is still unknown |
| `UpdateNotifier.HeardExactlyOnEdges` | app/update_notifier.py:114-169 | a deduplicating set lets a raise through exactly when every earlier raise of its key was cleared since |
| `UpdateNotifier.AnnouncedInOrder` | app/update_notifier.py:122-136 | the list a scan announces is the paths of exactly the entries announced, in order |
| `UpdateNotifier.UpdatesAnnouncedOnEdges` | app/update_notifier.py:114-148 | over every history, from every loaded store, an entry is announced exactly when it reports an update and each earlier report of it was followed by `up_to_date` or `mixed` |
| `UpdateNotifier.HostsNotifiedOnEdges` | app/update_notifier.py:172-197 | over every history, from every loaded store, a host is notifiable exactly on a clean-to-pending edge |
| `UpdateNotifier.HostChecksLeaveTracker` | app/update_notifier.py:172-197 | host checks interleaved with scans do not move the staleness tracker |
| `UpdateNotifier.SinceIsRunStart` | app/update_notifier.py:143-153 | `unknown_since` of a path is the time of the first scan in its current unbroken run of unknown scans, or the loaded time when the run is older than the history |
| `UpdateNotifier.RollupIsTriggered` | app/update_notifier.py:155-169 | a scan sends a rollup exactly when some path newly became stale, and it names all stale paths |
| `UpdateNotifier.OneTriggerPerRun` | app/update_notifier.py:155-169 | with a clock that never goes back, a path triggers at most one rollup per run |
| `UpdateNotifier.LongRunIsReported` | app/update_notifier.py:155-169 | every run observed at 24 hours or more triggers a rollup, unless the loaded store shows that it already did |
| `UpdateNotifier.ClockSetBackTriggersTwice` | app/update_notifier.py:155-169 | the clock hypothesis is needed: a history with two triggers in one run |
| `Slugs.SlugifyIsSlug` | app/config_manager.py:16-21 | a slug is lower case, digits and single inner hyphens |
| `Slugs.SlugifyIdempotent` | app/config_manager.py:16-21 | a slug is its own slug |
| `Slugs.SeparatorsBecomeHyphens` | app/config_manager.py:478-490 | words stay apart: spaces and underscores, and in a host dots and colons, become hyphens |
| `Slugs.ServerIdIsSlug` | app/config_manager.py:478-490 | a server id is a non-empty slug for every host text |
| `Slugs.UniqueServerId` | app/config_manager.py:511-518 | the search ends, by a measure over the finite taken set, with the first free id, never taken or reserved |
| `Slugs.FirstChoices` | app/config_manager.py:511-518 | a free id is taken as it is, else the first suffix tried is 2 |
| `ProxmoxConfig.StepKeepsConsistent` | app/config_manager.py:521-654 | server add, update, delete, migrate and host add, update, delete keep ids distinct and every stamp resolvable |
| `ProxmoxConfig.EveryRunStaysConsistent` | app/config_manager.py:88-145 | the same over any sequence of operations |
| `ProxmoxConfig.AddedServerResolves` | app/config_manager.py:521-543 | an added server resolves to what was entered, every other id as before |
| `ProxmoxConfig.ChangedServerResolves` | app/config_manager.py:546-571 | an update changes exactly the given fields of one server, and no other id |
| `ProxmoxConfig.DeletedServerResolves` | app/config_manager.py:584-587 | a deleted id resolves to nothing, every other id as before |
| `ProxmoxConfig.UpdateServerDoes` | app/config_manager.py:546-571 | updating a server changes what its id resolves to and nothing else in the configuration |
| `ProxmoxConfig.ChangedHolds` | app/config_manager.py:546-571 | what is given replaces, what is not given stays, the id always stays |
| `ProxmoxConfig.DeleteServerDoes` | app/config_manager.py:584-604 | deleting an unknown id changes nothing; a known one goes from the list, and the hosts are rewritten |
| `ProxmoxConfig.WithoutServerActsOneByOne` | app/config_manager.py:587 | the other servers keep their order |
| `ProxmoxConfig.NothingConfigured` | app/config_manager.py:396-410 | without any server, callers get no address, verification on and no pinned certificate |
| `ProxmoxConfig.HostReads` | app/host_ops.py:50-65 | a host is on a server if and only if its stamp is a non-empty text |
| `ProxmoxConfig.RebuiltHolds` | app/config_manager.py:123-139 | a rebuilt host keeps its docker settings, loses its proxmox fields, and else holds what was entered |
| `ProxmoxConfig.WithoutOneHost` | app/config_manager.py:142-145 | a host is deleted if and only if it has the slug |
| `ProxmoxConfig.WithoutHostActsOneByOne` | app/config_manager.py:142-145 | and the others keep their order |
| `ProxmoxConfig.MigrationPreservesMeaning` | app/config_manager.py:612-654 | every host and host-less caller resolves to the same url, verify flag, certificate and credentials before and after, if and only if no foreign credentials wait under the new key |
| `ProxmoxConfig.InterruptedMigration` | app/config_manager.py:646-654 | with the configuration saved and the credentials not yet renamed, a Proxmox host resolves as before if and only if the old and the new key hold the same, any other host or caller if and only if the new key is clear |
| `ProxmoxConfig.InterruptedForGood` | app/config_manager.py:612-654 | a host that lost its credentials there does not get them back from a later migration |
| `ProxmoxConfig.CredentialsFollow` | app/credentials.py:182-212 | the migrated credentials are found under the new key and through the fallback alike |
| `ProxmoxConfig.MigrationIsIdempotent` | app/config_manager.py:612-654 | a second migration changes neither configuration nor store |
| `ProxmoxConfig.StampAllOnlyStamps` | app/config_manager.py:646-648 | the migrated hosts are the same ones in the same order; each on a node has the new id under `proxmox_server`, and no other key of any host is touched |
| `ProxmoxConfig.StampedStaysWhatItIs` | app/host_ops.py:40-47 | so every host stays a plain host, node, container or virtual machine under its name |
| `ProxmoxConfig.ClassifyExactly` | app/host_ops.py:40-47 | plain without a node, a node without a vmid, a virtual machine by its type, else a container |
| `ProxmoxConfig.MigratedServerHolds` | app/config_manager.py:633-644 | the first server takes over address, verification and certificate; a fingerprint without a certificate is left behind |
| `ProxmoxConfig.MigrationOtherwise` | app/config_manager.py:612-632 | without a legacy block nothing changes; beside a server list the block just goes |
| `ProxmoxConfig.MigrationSparesOthers` | app/credentials.py:205-212 | every other entry of the credential store is untouched |
| `ProxmoxConfig.BackupServerOverwrites` | app/credentials.py:205-212 | the backup integration's credentials survive the migration if and only if the derived id is not `backup` |
| `ProxmoxConfig.DeleteActsHostByHost` | app/config_manager.py:574-609 | deleting a server keeps the order of the hosts and treats each on its own |
| `ProxmoxConfig.DeleteOneHost` | app/config_manager.py:574-609 | unrelated hosts keep their content, VMs lose exactly the four proxmox fields, nodes and containers go |
| `ProxmoxConfig.DeleteSparesIntegrations` | app/credentials.py:233-237 | only the deleted server's own integration entry goes |
| `ProxmoxConfig.DeleteSparesHosts` | app/credentials.py:161-164 | a host keeps its credentials unless a deleted host shares its slug |
| `ProxmoxConfig.ConfigManager.AddServer` | app/config_manager.py:521-543 | appends the server under a new id with every field as entered, the address without closing slashes, and keeps the configuration consistent |
| `ProxmoxConfig.ConfigManager.UpdateServer` | app/config_manager.py:546-571 | the search changes the first server with the id in place and keeps the configuration consistent |
| `ProxmoxConfig.ConfigManager.UpdateHost` | app/config_manager.py:123-139 | the search rebuilds the first host with the slug and keeps the configuration consistent |
| `ProxmoxConfig.ConfigManager.Migrate` | app/config_manager.py:612-654 | the loop over the hosts and the credential rename compute the specified migration; hosts are stamped and otherwise untouched |
| `ProxmoxConfig.ConfigManager.DeleteServer` | app/config_manager.py:574-609 | removes the server, rewrites hosts and store as specified, and keeps the configuration consistent |
| `ProxmoxConfig.ConfigManager.AddHost` | app/config_manager.py:88-120 | appends the host and keeps the configuration consistent |
| `ProxmoxConfig.ConfigManager.DeleteHost` | app/config_manager.py:142-145 | removes the hosts with the slug and keeps the configuration consistent |
| `ProxmoxConfig.SplitHosts` | app/config_manager.py:574-609 | the pass over the hosts yields the surviving hosts and the slugs whose credentials go |
| `ContainerRefs.QuoteReadsBack` | app/backends/ssh_docker_backend.py:153-165 | unquoting a percent-encoded name returns it and goes on behind it |
| `ContainerRefs.QuoteByteExactly` | app/backends/ssh_docker_backend.py:153-157 | letters, digits and `-._~` stand for themselves, every other byte is a percent sign and two hex digits |
| `ContainerRefs.StandaloneRoutesBack` | app/backends/ssh_docker_backend.py:258-272 | a standalone reference routes to the same host slug and container, whatever the name |
| `ContainerRefs.ComposeRoutesBack` | app/backends/ssh_docker_backend.py:258-272 | a compose reference routes to its project if and only if that has no `:` and no leading `~` |
| `ContainerRefs.RefsAreDistinct` | app/backends/ssh_docker_backend.py:153-157 | distinct targets get distinct references, for all names |
| `ContainerRefs.UpdateStack` | app/backends/ssh_docker_backend.py:258-272 | the reference is routed to the first host with its slug, so to the host it was made for exactly when no earlier host shares the slug |
| `KernelReboot.LessTransitive` | app/proxmox_client.py:29-41 | the order of version tuples is transitive across lengths |
| `KernelReboot.LessTotal` | app/proxmox_client.py:29-41 | and total: exactly one of smaller, equal, greater |
| `KernelReboot.ReleaseNameReadsBack` | app/proxmox_client.py:29-41 | a release name is compared by its four numbers |
| `KernelReboot.NoBuildIsZero` | app/proxmox_client.py:29-41 | a release without a build number is build zero |
| `KernelReboot.UnparseableIsLowest` | app/proxmox_client.py:29-41 | a release with any other kind of character is the lowest tuple |
| `KernelReboot.Newest` | app/ssh_client.py:388-414 | the loop finds a kernel no other is newer than |
| `KernelReboot.SshAgreesWithApi` | app/ssh_client.py:417-449 | without a pin and a usable saved entry, the decision is that some installed kernel is newer, as over the API |
| `KernelReboot.PinDecides` | app/ssh_client.py:388-414 | a pin asks for a reboot exactly when it is newer than the running kernel |
| `KernelReboot.ApiIgnoresPins` | app/proxmox_client.py:398-415 | where a pin holds the running kernel, the API heuristic still asks for a reboot |
| `KernelReboot.NothingToCompare` | app/ssh_client.py:436-449 | without a running kernel there is no answer, without any other kernel no reboot |
| `KernelReboot.SavedEntryNamesRelease` | app/ssh_client.py:388-414 | the release named in the middle of a saved GRUB entry is the one that is found |
| `KernelReboot.TrailingReleaseIsFound` | app/ssh_client.py:404-411 | of several releases in an entry the trailing one is found |
| `KernelReboot.SavedEntryDecides` | app/ssh_client.py:388-414 | without a pin, the saved release asks for a reboot exactly when its four numbers are above the running version |
| `KernelReboot.ParseKernelProbe` | app/ssh_client.py:357-385 | the line by line parser computes the facts and never records an empty kernel |
| `KernelReboot.ProbeReadsBack` | app/ssh_client.py:357-385 | probe text parses back to its facts, empty answers included |
| `KernelReboot.OtherKeysSayNothing` | app/ssh_client.py:370-384 | a line with an unknown key changes no fact |
| `AptParsers.ApplicableNames` | app/package_managers.py:63-78 | the loop collects a name if and only if some line plans its install |
| `AptOutput.SimulationReadsBack` | app/package_managers.py:63-78 | from a simulation of planned installs and other lines, exactly the planned names are read |
| `AptParsers.InstReadsBack` | app/package_managers.py:63-78 | a planned install reads back as its package name |
| `AptParsers.ParseHost` | app/package_managers.py:173-234 | the host parser's loop returns the packages of its list section under its plan |
| `AptParsers.ParseLxc` | app/proxmox_client.py:170-207 | the same for the container parser |
| `AptParsers.HostReadsRow` | app/package_managers.py:203-227 | a well-formed row comes back with its name, versions and verdict |
| `AptParsers.LxcReadsRow` | app/proxmox_client.py:180-207 | so it does in the container parser, unless the row starts like apt's heading; then it is skipped |
| `AptParsers.IncompleteLines` | app/package_managers.py:204-213 | what the parsers make of lines with too few words or without an old version |
| `AptParsers.ParsersAgree` | app/proxmox_client.py:170-207 | for every list of well-formed rows and any text in the sections, present or missing, both return the same packages |
| `AptOutput.HostReadsOutput` | app/package_managers.py:173-234 | from the whole output of the command, rows and simulations present or missing, the host parser returns exactly one package per row, in order, with its names, versions and verdict |
| `AptOutput.LxcReadsOutput` | app/proxmox_client.py:170-207 | so does the container parser, for every row that does not start like apt's heading |
| `AptOutput.ParsersAgreeExactly` | app/proxmox_client.py:170-207 | the two agree on an output if and only if no row of it starts like apt's heading |
| `AptOutput.HeldBackExactly` | app/package_managers.py:203-227 | each package of an output is held back exactly when an upgrade simulation is present and plans no install of it; the full-upgrade simulation decides the reason |
| `RateLimit.Prune` | app/auth_router.py:201-208 | the rebuilt list is what is recent |
| `RateLimit.AttemptsAreRecentFailures` | app/auth_router.py:196-216 | what is kept for an address is exactly what is recent among all failures since the last success |
| `RateLimit.AtMostFiveFailures` | app/auth_router.py:1507-1548 | no more than five recorded failures in any fifteen minutes without a success between |
| `RateLimit.LockoutEnds` | app/auth_router.py:201-208 | an address is locked out exactly while five are kept and the oldest is younger than fifteen minutes |
| `RateLimit.LockedOutExactly` | app/auth_router.py:201-208 | an address is locked out if and only if the fifth last failure since a success is under fifteen minutes old |
| `RateLimit.AtMostThirtyMutations` | app/main.py:161-176 | no more than thirty accepted admin mutations in any sixty seconds |
| `RateLimit.RefusedExactly` | app/main.py:161-176 | a mutation is refused if and only if the thirtieth last accepted one is under sixty seconds old |
| `RateLimit.LoginLimiter.CheckRateLimit` | app/auth_router.py:201-208 | prunes one address, decides, and gives the time left |
| `RateLimit.LoginLimiter.Submit` | app/auth_router.py:1507-1548 | one login moves the attempts of its address as specified and no other's |
| `RateLimit.MutationLimiter.Dispatch` | app/main.py:161-176 | one request moves the window of its address as specified and no other's |
| `Coverage.ContainersForHost` | app/backends/ssh_docker_backend.py:329-372 | the filtering loop yields the entries of a host in `all` mode |
| `Coverage.EnteredUnless` | app/backends/ssh_docker_backend.py:329-372 | a container is an entry if and only if it has a name and an image, is not Keepup's own or of its project, and is not claimed by an active Portainer |
| `Coverage.EntriesActOneByOne` | app/backends/ssh_docker_backend.py:347-372 | entries keep the order of `docker ps` |
| `Coverage.ClaimedExactly` | app/backends/ssh_docker_backend.py:780-828 | a project is left to Portainer if and only if an agent runs on the host and a container of it was started from Portainer's directory by a listed stack of its id and name |
| `Coverage.PathNamesStack` | app/backends/ssh_docker_backend.py:780-787 | a path below Portainer's directory names its stack by number |
| `Coverage.ManagedHasStack` | app/backends/ssh_docker_backend.py:771-828 | a project left to Portainer matches a listed stack by id and by case-folded name |
| `Coverage.PortainerRows` | app/portainer_client.py:197-326 | one row per stack it does not exclude as its own, reachable endpoint or not |
| `Coverage.RowExactly` | app/portainer_client.py:211-240 | a stack has a row if and only if it is listed and none of its containers is Keepup's own, by id or name |
| `Coverage.RowsActOneByOne` | app/portainer_client.py:211-240 | before the final sort, rows come in the order of the stacks |
| `Coverage.NobodyUnchecked` | app/backends/ssh_docker_backend.py:308-372 | every named, imaged, foreign container is an SSH entry or belongs to a listed stack that has a Portainer row or is Keepup's own |
| `Coverage.CheckedExactly` | app/portainer_client.py:211-226 | a container of a reachable endpoint is an entry, or seen by a Portainer row, if and only if it is not claimed, or the list has a stack of its project's name on this endpoint that is not Keepup's own |
| `Coverage.ClaimedFromElsewhere` | app/backends/ssh_docker_backend.py:771-787 | a container claimed by a stack of another endpoint, and checked by nobody |
| `Coverage.InactiveLeavesNothing` | app/backends/ssh_docker_backend.py:366-372 | without an active Portainer nothing is left out |
| `Coverage.ListNarrowsClaims` | app/backends/ssh_docker_backend.py:790-828 | knowing the stack list only moves containers towards SSH |

## Left out

- Web routes, templates, sessions, CSRF, audit log and scheduling: request plumbing and user interface.
- Password hashing, TOTP, encryption of the store, TLS pinning: opaque cryptography. The store is its decrypted map.
- Registry lookups, Proxmox discovery, mail and push delivery, SSH and HTTP transport: their results are parameters or nondeterministic replies. Clocks and random ids are parameters; run ids are assumed fresh.
- Docker's lookup of containers by id prefix: names only.
- A command that ends without an exit status counts as a lost connection.
- The log lines an update returns, and the settling delay as a duration: containers may crash and restart at any moment anyway.
- The activity log's file effects are steps of a state machine and not class methods, because what matters is their interleaving. Quarantine of a corrupt index file, the cached index, legacy entries that are not dictionaries, and the order of the index outside the import are not modelled.
- Redaction.NoSecretSurvives: for several secrets that are not all sturdy only this direction is proved. Which such sets are safe depends on how the secrets overlap; for a single secret `AloneSafeExactly` is exact.
- DockerRun.SettingsRecovered: does not cover relative host paths, which Docker's client would resolve and inspect never shows, nor what the printer drops on purpose: tmpfs options, the words of exec-form health checks, further networks and aliases, wildcard host addresses. The words of an exec-form check come back joined, not quoted.
- Negative durations and CPU counts, which Docker refuses to create.
- Unicode: names in references are their UTF-8 bytes, a reference is ASCII, case mapping and white space are ASCII, and `int()` reads plain digits only.
- The host part of a server URL is a parameter, because URL parsing is a library's. `save_proxmox_config`, which writes through the single-server shim, and the operations that store a host's Docker monitoring mode and migrate its stack list, are not modelled.
- ProxmoxConfig.EveryRunStaysConsistent: a host is added only with the id of an existing server, as the wizard does.
- Statuses, reasons, names and order of Portainer's rows, `selected` mode, and the fixed fallback when the stack list is unavailable beyond `Coverage.ListNarrowsClaims`.
- The reboot flag of the apt parsers and the other package managers' parsers. Output with a full-upgrade section but no upgrade section, which the commands cannot print.
- RateLimit.LoginLimiter.CheckRateLimit: times are integers, so the truncation of the remaining seconds is not visible.
- Uniqueness of the scheduler's stack job ids, which does not hold.
