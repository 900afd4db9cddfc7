# nandroid orchestration, modelled in Dafny

This project models the decision and sequencing core of `nandroid.c`, the
backup/restore engine of an Android recovery. The model covers:

- which archiving strategy ("backup handler") a partition gets, and how the
  persisted or forced 3-character format tag selects the default one;
- how one partition is backed up: skipped, imaged raw, or mounted, scanned,
  archived and unmounted. This includes where the artifact stem is written
  (`<dir>/<name>.<fs>`, `.auto`, or the stdout path `/proc/self/fd/1` for
  `-`);
- how a restore finds its artifact: the legacy `<name>.img`, else the first
  existing file over 8 filesystems × 4 suffixes, which also fixes the
  filesystem to format with and the restore strategy;
- how one partition is restored: erase then flash for raw partitions,
  otherwise format, mount, extract, unmount, with each failure propagated;
- the content-store GC gate in front of the first `dedupe c` of a run, and
  where the blob store and the scanned backup tree are;
- the device pipelines `nandroid_backup`, `nandroid_restore`,
  `nandroid_dump` and `nandroid_undump`. They are fixed step lists run by one
  early-exit fold: the first non-zero status stops the run and is returned;
- the progress counters: the count is reset by the pre-scan and bumped per
  output line, and count/total is reported only when the total is non-zero.

Everything the code asks the outside world is an answer stored in an `Env`:

- mount, format, raw dump/flash and tool exit statuses;
- file existence, the volume table and the mount table;
- system properties and the contents of the format file.

Every external action a run performs is an `Event` appended to a trace. So
"step X never runs" or "the GC comes before every `dedupe c`" are statements
about traces. The C globals (default handler, forced format, GC bit, file
count and total) form the `Session` record. `bionic`'s `dirname`/`basename`
semantics are modelled in `Paths`, since the blob-store path is derived with
them.

Files, in dependency order:

| file | contents |
|---|---|
| `paths.dfy` | C strings, `dirname`, `basename` |
| `model.dfy` | volumes, handlers, events, `Env`, `Session`, trace predicates |
| `formats.dfy` | format tag parsing, default handler refresh |
| `progress.dfy` | callback, pre-scan, draining a piped tool |
| `handlers.dfy` | handler choice, running strategies, GC gate and blob paths |
| `probe.dfy` | the restore format prober |
| `partitions.dfy` | backup and restore of one partition |
| `fold.dfy` | the generic early-exit fold and its reference |
| `pipeline.dfy` | backup, restore, dump and undump pipelines |
| `findings.dfy` | the restore's return value as written |
| `formatbuffer.dfy` | the format file read into its uninitialised buffer, as written |

## Model

| member | source | states |
|---|---|---|
| Paths.CStr | nandroid.c:227-234 | the string a buffer holds is a NUL-free prefix of it, ending at the first NUL when there is one |
| Paths.DirnameOfChild | nandroid.c:178-183 | going up from `d/c` gives back `d` for a well-formed `d` and a single component `c` |
| Paths.BasenameOfChild | nandroid.c:300 | the last component of `d/c` is `c` |
| Paths.DirnameOfExtended | nandroid.c:191-201 | appending a slash-free suffix to the last component leaves the directory unchanged |
| Formats.ParseFormatTag | nandroid.c:246-254 | "dup" selects dedupe and "tgz" tar.gz exactly when the buffer starts with that tag; everything else, "tar" included, selects tar |
| Formats.EffectiveTagMatches | nandroid.c:246-247 | clearing the fourth byte makes the string equal a 3-letter tag exactly when the buffer starts with it |
| Formats.FormatTagRoundTrip | nandroid.c:246-254 | the tag of each format parses back to that format |
| Formats.OnlyFirstThreeMatter | nandroid.c:243-246 | characters after the third never change the parsed format |
| Formats.ForcedFormatWins | nandroid.c:233-235 | a non-empty forced format decides the format whatever the format file holds |
| Formats.MissingFileMeansTar | nandroid.c:238-241 | with no forced format and no format file, the format is tar |
| Formats.FormatHandlerRoundTrip | nandroid.c:257-266 | the format reported for the handler a format selects is that format, so formats and default handlers are in one-to-one correspondence |
| Formats.ForceBackupFormat | nandroid.c:227-230 | storing a forced format of at most four characters sets the override exactly when it is non-empty, parses the same, and leaves the rest of the session alone |
| Formats.ParseStopsAtNul | nandroid.c:246-247 | parsing a buffer and parsing the C string it holds agree |
| Formats.ShortFormatFileMeansTar | nandroid.c:236-254 | without a forced format, a format file shorter than a tag selects tar |
| Formats.RefreshDefaultBackupHandler | nandroid.c:231-255 | the default handler is the one of the configured format (forced, else file, else tar) and always one of tar, tar.gz, dedupe; a file too short to hold a tag reads as tar (see Findings) |
| Formats.GetDefaultBackupFormat | nandroid.c:257-266 | the reported format is the forced tag's, else the file's, else tar; a file too short to hold a tag reports tar (see Findings) |
| Progress.Callback | nandroid.c:83-100 | a NULL line changes nothing; a line bumps the count by one and is reported, as the new count over the total, exactly when the total is non-zero |
| Progress.Ticks | nandroid.c:130-134 | after n lines the count has grown by n, and the reports are (count+1)/total … (count+n)/total, none when the total is 0 |
| Progress.ComputeDirectoryStats | nandroid.c:102-115 | the count restarts at 0 and the total is the number of entries found, nothing else changes |
| Progress.Drain | nandroid.c:124-136 | a tool that cannot start gives -1 and no reports; otherwise its exit status; reports only with a non-zero total and the callback on, one per line |
| Progress.ProgressAfterScan | nandroid.c:93-97 | after a scan finding `total` entries, n lines give n reports, the last n/total, and leave the session counting n of total |
| Handlers.GetBackupHandler | nandroid.c:268-293 | NULL exactly when the volume or its mount is missing; data-on-media and a forced format get the default, then yaffs2 gets the image maker, then the default |
| Handlers.DataMediaIgnoresYaffs2 | nandroid.c:280-282 | `/data` on a data-media device is archived with the default even when it is yaffs2 |
| Handlers.GetRestoreHandler | nandroid.c:620-650 | NULL exactly when the volume or its mount is missing; data-on-media gets tar; otherwise the image extractor exactly when prefer_tar is not "true" or the filesystem is yaffs2 |
| Handlers.RestoreInverseBijective | nandroid.c:657-703 | each restore strategy undoes exactly one backup strategy |
| Handlers.BlobStoreBesideBackups | nandroid.c:178-201 | the directory the GC scans and the blob store are siblings under the artifact's third ancestor |
| Handlers.StandardLayout | nandroid.c:178-201 | for `<root>/backup/<run>/<file>` the blob store is `<root>/blobs` and the GC scans `<root>/backup` |
| Handlers.RestoreUsesBackupBlobStore | nandroid.c:191-201 | the `.dup` artifact of a stem and the stem itself resolve to the same blob store |
| Handlers.PipedBackupTrace | nandroid.c:204-221 | an optional GC, the tool, then reports: at most one GC, every `dedupe c` guarded, no raw image, the only tool the given one |
| Handlers.BackupHandlerIgnoresCounters | nandroid.c:268-293 | the chosen strategy does not depend on the pre-scan's counters |
| Handlers.RunBackupHandler | nandroid.c:120-224 | the dedupe strategy runs the GC first exactly when the bit is clear and sets the bit; the tool reads the partition and writes beside the stem; only progress reports follow the tool; the result is the tool's status: the dumper's own, a piped tool's exit status, -1 when it cannot start |
| Handlers.RunPipedBackup | nandroid.c:120-224 | a piped strategy runs the GC first exactly when it is deduplicating and the bit is clear, then its tool, then only progress reports; the result is the tool's exit status, -1 when it cannot start |
| Handlers.BackupHandlerGcStep | nandroid.c:204-209 | every backup strategy runs the GC at most once, only when the bit was clear, and before any `dedupe c` |
| Handlers.RunRestoreHandler | nandroid.c:768-771 | the tool runs first and only progress follows; no progress with a zero total; the result is the tool's status: the undumper's own, a piped tool's exit status, -1 when it cannot start; GC bit and total untouched |
| Probe.Candidates | nandroid.c:657-705 | the grid has 8 × 4 entries |
| Probe.CandidateAt | nandroid.c:679-704 | grid point (filesystem f, suffix s) is tried at position 4f+s: filesystem-major, suffix-minor |
| Probe.FirstHitIndex | nandroid.c:679-705 | the index found holds an existing file and no earlier candidate exists |
| Probe.ProbeArtifact | nandroid.c:673-710 | nothing is found exactly when no candidate exists; a find is an existing candidate with no existing candidate before it |
| Probe.FirstHitIsProbe | nandroid.c:679-705 | any existing candidate with no existing candidate before it is the probe's answer |
| Probe.ProbeLoop | nandroid.c:677-705 | the nested filesystem/suffix loop with early exit returns exactly the first-hit answer |
| Probe.CandidatePathsDistinct | nandroid.c:680-698 | different grid points name different files |
| Probe.ProbeFindsOnlyArtifact | nandroid.c:679-705 | a directory holding only `<name>.<fs><suffix>` probes to that file, its filesystem and that suffix's strategy |
| Probe.SuffixOfBackupHandler | nandroid.c:120-224 | each file-writing backup strategy leaves a suffix the prober maps to its inverse strategy |
| Probe.BackupArtifactProbesToInverse | nandroid.c:679-705 | the artifact a backup strategy writes for a known filesystem probes to that filesystem and the inverse strategy |
| Probe.UnlistedFilesystemNotProbed | nandroid.c:657 | an artifact tagged with a filesystem outside the list is never found |
| Partitions.BackupStem | nandroid.c:319-324 | the stdout path `/proc/self/fd/1` for `-`, otherwise a name strictly inside `<dir>/` |
| Partitions.StemNamesPartition | nandroid.c:319-324 | the stem sits directly in the backup directory and is named `<name>.<fs>` (`auto` when unknown) |
| Partitions.RawImageRoundTrip | nandroid.c:371-375 | a top-level raw partition is flashed back from the file its image was written to |
| Partitions.BackupPartitionExtended | nandroid.c:295-357 | a mount failure returns 1 and does nothing more; the pre-scan sets the total; no handler returns -2 after mount and scan; otherwise the handler `GetBackupHandler` chooses runs, only progress reports and the unmount follow it, its status is returned, the unmount last exactly when asked whatever it returned; the tools write beside the stem; no raw image; GC bookkeeping kept |
| Partitions.MountedBackup | nandroid.c:312-356 | once mounted: the pre-scan sets the total; no handler returns -2 after mount and scan only; with a handler, the one `GetBackupHandler` chose runs right after mount, scan and any GC, only progress reports and the unmount follow it, its status is returned, and the unmount is last exactly when asked; only the one artifact is written and no raw image |
| Partitions.RunChosenBackup | nandroid.c:312-354 | the pre-scan sets the total before the strategy runs; mount and scan come first, then the GC when needed, then the tool of the given strategy, then only progress reports and the unmount, last exactly when asked; its status is the result; the GC bit is set exactly when it was set before or the strategy is the deduplicating one |
| Partitions.ScannedBackup | nandroid.c:325-349 | mount and scan precede the strategy; the result is the strategy tool's status; the strategy keeps the estimate, the forced strategy and the default; it sets the GC bit only for the deduplicating strategy |
| Partitions.ScannedBackupRunsStrategy | nandroid.c:325-349 | the strategy's tool runs right after mount, scan and the GC the strategy may need; only progress reports and at most the unmount follow it |
| Partitions.ScannedBackupUnmounts | nandroid.c:347-349 | the last action is the unmount exactly when unmount was asked, whatever the strategy returned |
| Model.FramedReports | nandroid.c:347-349 | a strategy run followed only by reports, framed by earlier actions and the optional unmount, is followed by nothing but reports and that unmount |
| Partitions.ScannedBackupTools | nandroid.c:325-349 | the framed strategy still runs its tool only on the one artifact, writes no raw image, and keeps the GC at most once and before any deduplicating backup |
| Partitions.BackupPartition | nandroid.c:359-388 | an absent or untyped volume returns 0 with no action; mtd/bml/emmc write only the raw image (`<dir>/<name>.img` or stdout) and consult no strategy; the rest go through the extended backup with unmount |
| Partitions.StreamedYaffs2Image | nandroid.c:319-331 | backing a mounted yaffs2 partition up to the stream (not forced, not on shared storage) runs the yaffs2 image maker, third in the trace, with the stdout path as stem |
| Partitions.LocateArtifact | nandroid.c:664-714 | stdin with tar and the volume's type when streaming; the legacy image with nothing fixed when it exists; otherwise skipped exactly when no grid file exists, and a find is the probe's first existing candidate with its filesystem and strategy |
| Partitions.FormatFs | nandroid.c:726-729 | `auto` volumes and `/data` on data-media discard the probed filesystem; every other volume keeps it |
| Partitions.ChooseRestoreHandler | nandroid.c:755-761 | the undumper when streaming; else the probed strategy; else the legacy fallback |
| Partitions.RestorePartitionExtended | nandroid.c:652-799 | skipped with 0 and no action when nothing is found; otherwise format first, a format or mount failure returns that status before any strategy; the chosen strategy runs third with the found image, only progress reports and at most the unmount follow it, and its status is returned; no strategy returns -2; an unmount happens only when asked and the strategy succeeded, and is then last; no backup tool, GC bit and total untouched |
| Partitions.RunChosenRestore | nandroid.c:768-796 | format, mount, the given strategy in that order, then only progress reports and at most the unmount; no other strategy run; the strategy tool's status is the result; an unmount happens only when asked and the strategy succeeded, and is then last |
| Partitions.RestorePartition | nandroid.c:801-833 | an absent or untyped volume returns 0; raw partitions are erased, and an erase failure stops before flashing `<dir><root>.img` (or stdin); the rest go through the extended restore with unmount |
| Partitions.BackupArtifactIsLocated | nandroid.c:319-324 | backup then restore: a directory holding just the artifact a backup wrote is located to it, with the filesystem it came from and the inverse strategy |
| Partitions.AutoArtifactIsSkipped | nandroid.c:321-322 | a partition backed up under the `.auto` stem has its restore skipped when no legacy image exists |
| Fold.RunSteps | nandroid.c:426-503 | no steps succeed with no action; a failing first step is the whole result |
| Fold.FirstFailure | nandroid.c:426-503 | every step before the index succeeds and the one at it fails |
| Fold.RunStepsStatus | nandroid.c:426-503 | the fold's status is that of the reference's first failing step, 0 when none fails |
| Fold.RunStepsTrace | nandroid.c:426-503 | the fold's actions are those of the reference's steps up to and including the first failing one |
| Fold.RunStepsSucceedsIffAllSucceed | nandroid.c:426-503 | the fold succeeds exactly when every step of the reference does |
| Fold.RunStepsGc | nandroid.c:204-207 | steps that each keep the GC bookkeeping keep it when folded |
| Fold.RunStepsQuiet | nandroid.c:839 | steps that report no progress from a zero total, run no backup tool and keep the bit, keep all that when folded |
| Fold.NothingRunDoesNothing | nandroid.c:858-914 | steps that all do nothing fold to success with no action |
| Fold.RunStepsEndsWith | nandroid.c:484-489 | a successful fold whose last step always performs one action ends with it |
| Pipeline.BackupWimaxStep | nandroid.c:432-443 | the wimax image is dumped raw to `wimax.<serial>.img`, and a failure is reported as 1 |
| Pipeline.BackupSdExtStep | nandroid.c:471-482 | an sd-ext that will not mount is skipped with 0; otherwise its backup's status is the step's |
| Pipeline.RestoreWimaxStep | nandroid.c:864-890 | skipped when the backup has no wimax image; an erase failure is reported as 1 before any flash; otherwise the flash's status |
| Pipeline.ExecStep | nandroid.c:426-503 | every step keeps the GC bookkeeping; restore steps run no backup tool, keep the bit and the total, and report no progress from a zero total; md5 generation is one action with its own status |
| Pipeline.ExecBackupStep | nandroid.c:426-489 | a backup step keeps the GC bookkeeping, the forced strategy and the default; md5 generation is one action with its own status |
| Pipeline.ExecRestoreStep | nandroid.c:858-914 | a restore step keeps the GC bit and the total, runs no backup tool, and reports no progress from a zero total |
| Pipeline.Exec | nandroid.c:426-503 | a step not taken succeeds and does nothing |
| Pipeline.RunPlan | nandroid.c:426-503 | a plan keeps the GC bookkeeping, and an empty plan does nothing |
| Pipeline.PlanStopsAtFirstFailure | nandroid.c:426-503 | a plan's status is its first failing step's, its actions stop after that step, and it succeeds exactly when every step does |
| Pipeline.RestoreStepsQuiet | nandroid.c:839 | restore steps from a zero total report no progress, run no backup tool and keep the bit and the total |
| Pipeline.BackupPlan | nandroid.c:426-489 | eleven steps ending with md5 generation, none of them a restore |
| Pipeline.RestorePlan | nandroid.c:858-914 | nine restore steps, none taken when no category flag is set |
| Pipeline.NothingTakenDoesNothing | nandroid.c:858-914 | a plan with no step taken succeeds with no action |
| Pipeline.FreshRun | nandroid.c:392-394 | a run starts with the GC bit clear and the default handler of the configured format |
| Pipeline.NandroidBackup | nandroid.c:390-504 | the backup directory is mounted first; a mount failure, a missing volume or a failed stat returns 1 after the mount only; otherwise the result is the plan's; GC bookkeeping from a clear bit |
| Pipeline.BackupRunGcAtMostOnceAndFirst | nandroid.c:204-207 | within one backup run the GC runs at most once and before every `dedupe c`, whatever earlier runs did |
| Pipeline.BackupPlanEndsWithMd5 | nandroid.c:484-489 | a successful backup plan ends with md5 generation |
| Pipeline.BackupStopsAtFirstFailure | nandroid.c:426-503 | past the mount, volume and stat checks, a backup returns its first failing step's status, no later step runs, it succeeds exactly when every step does, and then md5 generation is its last action |
| Pipeline.NandroidRestore | nandroid.c:835-926 | the total is cleared; a mount failure returns 1; an md5 mismatch returns 1 before any partition is touched; otherwise the result is the plan's after the gate; no progress reported, no backup tool run |
| Pipeline.RestoreStopsAtFirstFailure | nandroid.c:858-914 | past the gate, a restore returns its first failing step's status, no later step runs, and it succeeds exactly when every selected step does |
| Pipeline.RestoreWithoutFlagsDoesNothing | nandroid.c:858-914 | with no category selected, a restore past the gate touches no partition and returns 0 |
| Pipeline.NandroidDump | nandroid.c:506-533 | unknown partitions return 1 with no action; boot and recovery are one image dump; data and system are the partition backup to the stream with the tar dumper as default; no GC; every backup tool is given the stem `/proc/self/fd/1` and every raw image goes to stdout |
| Pipeline.DumpOfYaffs2WritesImageFile | nandroid.c:120-122 | dumping a mounted yaffs2 data or system partition (not forced, not on shared storage) runs the image maker with the stdout stem, whose `.img` suffix makes it write the file `/proc/self/fd/1.img` instead of the stream |
| Pipeline.NandroidUndump | nandroid.c:928-954 | boot is one image flash; recovery, system and data are the partition restore from the stream, whose status is returned; unknown partitions return 0 with no action; every extraction is the undumper from stdin and every raw flash reads the stream; no progress and no backup tool |
| Findings.RetAsWritten | nandroid.c:858-914 | once the result variable holds a value it keeps holding one |
| Findings.NandroidRestoreAsWritten | nandroid.c:835-856 | a backup that will not mount or fails its md5 check returns 1 |
| Findings.UnassignedReturnWithoutFlags | nandroid.c:858-925 | with no category selected, past the gate, the result variable is never assigned |
| Findings.RetAgreesWithPlan | nandroid.c:858-925 | whenever the result variable was assigned it equals the plan's status, and a failing step's status is always returned |
| Findings.AsWrittenAgreesWhenAssigned | nandroid.c:835-925 | the code as written and the corrected restore agree on every run whose result was assigned, and a system restore always assigns it |
| FormatBuffer.ReadBuffer | nandroid.c:243 | the buffer holds the file's first bytes and, past its end, the bytes it held before |
| FormatBuffer.ConfiguredFormatAsWritten | nandroid.c:231-254 | as the code reads the buffer: a forced format or a missing file decide as in the corrected reading |
| FormatBuffer.FullTagIgnoresStaleBytes | nandroid.c:243-254 | a file of at least three bytes is read the same whatever the stale bytes, and agrees with the corrected reading |
| FormatBuffer.ZeroedBufferIsConfigured | nandroid.c:231-254 | with a zeroed buffer the code reads exactly the corrected format |
| FormatBuffer.EmptyFileReadsStaleTag | nandroid.c:243-247 | an empty format file and a buffer that last held "dup" select dedupe, where the corrected reading selects tar |

## Left out

- The user interface (`ui_*`, `set_perf_mode`, log redirection) and the
  free-space warning of `nandroid_backup`. They are informational and
  never change a result.
- The shell command strings and the behaviour of the tools behind them
  (tar, pigz, split, dedupe, mkyaffs2image, unyaffs, dump_image,
  flash_image, md5sum, find/wc). Each tool is an answer in `Env`: its
  printed lines and exit status, or a status alone.
- The mount, format and volume-table layer. Its answers are inputs.
- Actions whose status the code ignores: `ensure_directory`, the log copy,
  `chmod`, `sync`, and the storage mounts made before reading the format
  file (line 237), before checking the hide-progress marker (lines 304
  and 735) and before checking the no-md5 marker (line 848). They are not
  traced.
- `nandroid_generate_timestamp_path`, `bu_main`, `nandroid_main` and
  `nandroid_usage`: wall-clock naming, fd plumbing and argument dispatch.
- The conditionally compiled SELinux context backup and restore.
- Progress.Callback: the `ui_was_niced` rate limit is not modelled, so a
  report is made for every line while the total is non-zero. The float
  fraction is kept as the pair count/total.
- Progress.ComputeDirectoryStats: the entry count is an input; `atoi` of
  the `wc -l` output is not modelled.
- Handlers.GetBackupHandler: a mounted volume whose filesystem is NULL is
  treated as not yaffs2. The code passes NULL to `strcmp` there, which
  is undefined.
- Handlers.GetRestoreHandler: the same NULL-filesystem reading as above.
- Partitions.RestorePartitionExtended: requires that a partition whose
  artifact is found has a volume with a type. Line 728 dereferences the
  volume even when it is NULL, and line 726 compares a NULL type.
  Those runs are undefined and are excluded by the precondition
  `RestoreDefined`.
- Pipeline.NandroidRestore: requires that every selected restore step is
  defined in the sense above. The code has no such check.
- Formats.ForceBackupFormat: requires a format of at most four
  characters. The code copies into a 5-byte buffer and overflows on
  longer input.
- Formats.RefreshDefaultBackupHandler: reads a format file shorter than
  three bytes as plain tar. The code leaves the rest of its buffer
  uninitialised there, so its choice depends on stale bytes; the module
  `FormatBuffer` models that reading (see Findings).
- Formats.GetDefaultBackupFormat: the same reading of a short format file
  as above.
- Pipeline.NandroidDump: a yaffs2 data or system partition is not
  streamed. The image maker appends `.img` to the stdout stem and writes
  the file `/proc/self/fd/1.img` (line 122); the model keeps that
  behaviour, and `DumpOfYaffs2WritesImageFile` states it.
- Pipeline.NandroidBackup: a failed `statfs` is an input flag; the free
  space it reports is not modelled.

## Findings

| source | as written | input that shows it | evidently intended | confidence | as-written member | corrected member |
|---|---|---|---|---|---|---|
| nandroid.c:236-254 | `char fmt[5];` is not initialised; `fread` may copy fewer than three bytes, and the first three are compared anyway | no forced format and an empty format file, with the buffer last holding "dup" | a file too short to hold a tag selects tar, like any unknown tag | not executed | FormatBuffer.EmptyFileReadsStaleTag | Formats.ShortFormatFileMeansTar |
| nandroid.c:858-925 | `int ret;` is declared without a value and only assigned by the restore steps that run; `return ret;` returns it regardless | a restore whose backup mounts and passes the md5 gate, with every category flag 0 | return 0 when no step fails | not executed | Findings.UnassignedReturnWithoutFlags | Pipeline.NandroidRestore |

`Findings.NandroidRestoreAsWritten` models the code as written. It
returns `None` for the indeterminate value. `Findings.AsWrittenAgreesWhenAssigned`
proves that it agrees with the corrected `Pipeline.NandroidRestore`
whenever the variable was assigned. The rest of the model uses the
corrected restore, which returns 0 when no step fails;
`Pipeline.RestoreWithoutFlagsDoesNothing` proves that for the input above.

`FormatBuffer.ConfiguredFormatAsWritten` reads the format file as the code
does, with the stale buffer bytes as a parameter.
`FormatBuffer.FullTagIgnoresStaleBytes` shows that the stale bytes matter
only for a file shorter than three bytes, and
`FormatBuffer.ZeroedBufferIsConfigured` shows that a zeroed buffer gives
the corrected `Formats.ConfiguredFormat`, which the rest of the model uses.
