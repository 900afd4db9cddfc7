/** Shared vocabulary of the nandroid backup/restore engine: partition
    descriptors, the closed sets of strategies, the external actions a run
    performs (as trace events), the answers of the collaborators the engine
    cannot see (as an `Env`), and the per-process run state (as a `Session`). */
module Model {

  datatype Option<T> = None | Some(value: T)

  /** An entry of the recovery's volume table. A NULL `fs_type` is `None`. */
  datatype Volume = Volume(mountPoint: string, fsType: Option<string>, blkDevice: string)

  /** An entry of the live mount table. A NULL `filesystem` is `None`. */
  datatype MountedVolume = MountedVolume(mountPoint: string, filesystem: Option<string>)

  /** The device-wide backup format, persisted as a 3-character tag. */
  datatype BackupFormat = Tar | Tgz | Dup

  /** The backup strategies: one per format, the legacy yaffs2 image maker,
      and the tar dumper used when streaming to a file descriptor. */
  datatype BackupHandler = TarArchive | TarGzArchive | DedupeArchive | Yaffs2Image | TarDump

  /** The restore strategies, one inverse per backup strategy. */
  datatype RestoreHandler = UnyaffsImage | TarExtract | TarGzExtract | DedupeExtract | TarUndump

  /** What a piped external tool did: the lines it printed and its exit
      status, or a failure to start it at all. */
  datatype ToolRun = Launched(lines: seq<string>, exit: int) | LaunchFailed

  /** One externally visible action of a run, in the order performed.
      `Progress` is a determinate progress report to the UI. */
  datatype Event =
    | Mount(path: string)
    | Unmount(path: string)
    | Scan(dir: string)
    | RawBackup(volume: Volume, dest: string)
    | RawRestore(volume: Volume, source: string)
    | FormatVolume(path: string)
    | FormatDevice(device: string, mountPoint: string, fs: string)
    | RunBackupTool(backupHandler: BackupHandler, source: string, stem: string)
    | RunRestoreTool(restoreHandler: RestoreHandler, image: string, target: string)
    | DedupeGc(blobDir: string, backupDir: string)
    | DumpImage(partition: string)
    | FlashImage(partition: string)
    | Md5Generate(dir: string)
    | Md5Check(dir: string)
    | Progress(count: int, total: int)

  /** The collaborators, as the answers they give.
      - `volumes`: `volume_for_path`, keyed by the path asked about;
      - `mounted`: `find_mounted_volume_by_mount_point` once that volume is mounted;
      - `dataMedia`: `is_data_media()`; `onDataMedia`: `is_data_media_volume_path`;
      - `fileExists`: `stat(...) == 0`;
      - `status`: the status returned by a status-only action;
      - `output`: what a piped tool prints and returns;
      - `entries`: the entry count of the pre-scan (path, exclude /data/media);
      - `configFile`: the contents of the backup-format file, if it opens;
      - `preferTar`, `serialNo`: the `ro.cwm.prefer_tar` and `ro.serialno` properties;
      - `hasDatadata`: `has_datadata()`; `hideProgress`: the hide-progress marker exists;
      - `androidSecurePath`: `get_android_secure_path()`;
      - `backupStatOk`: `statfs` on the backup volume succeeds. */
  datatype Env = Env(
    volumes: map<string, Volume>,
    mounted: map<string, MountedVolume>,
    dataMedia: bool,
    onDataMedia: string -> bool,
    fileExists: string -> bool,
    status: Event -> int,
    output: Event -> ToolRun,
    entries: (string, bool) -> int,
    configFile: Option<string>,
    preferTar: string,
    serialNo: string,
    hasDatadata: bool,
    hideProgress: bool,
    androidSecurePath: string,
    backupStatOk: bool)

  /** The process-wide state the C code keeps in statics: the forced format,
      the current default backup handler, the "dedupe space already cleared"
      bit, and the progress counters. */
  datatype Session = Session(
    forced: string,
    defaultHandler: BackupHandler,
    gcDone: bool,
    filesCount: int,
    filesTotal: int)

  /** What an operation leaves behind: the new session, its status (0 is
      success) and the actions it performed. */
  datatype Outcome = Outcome(session: Session, status: int, trace: seq<Event>)

  /** The mounted-table record of the volume that holds `path`, if both the
      volume and its mount exist. */
  function MountedRecord(env: Env, path: string): (r: Option<MountedVolume>)
    ensures r.Some? <==> path in env.volumes && env.volumes[path].mountPoint in env.mounted
  {
    if path !in env.volumes then None
    else
      var mp := env.volumes[path].mountPoint;
      if mp in env.mounted then Some(env.mounted[mp]) else None
  }

  /** The filesystem the mount table reports for `path`, if any. */
  function MountedFs(env: Env, path: string): Option<string> {
    match MountedRecord(env, path)
    case None => None
    case Some(mv) => mv.filesystem
  }

  /** The partition at `path` is `/data` on a device whose shared storage
      lives inside the data partition. */
  predicate IsDataOnMedia(env: Env, path: string) {
    path == "/data" && env.dataMedia
  }

  /** Number of content-store garbage collections in a trace. */
  function GcCount(t: seq<Event>): nat {
    if |t| == 0 then 0 else (if t[0].DedupeGc? then 1 else 0) + GcCount(t[1..])
  }

  lemma {:induction false} GcCountAppend(a: seq<Event>, b: seq<Event>)
    ensures GcCount(a + b) == GcCount(a) + GcCount(b)
  {
    if |a| > 0 {
      assert (a + b)[1..] == a[1..] + b;
      GcCountAppend(a[1..], b);
    } else {
      assert a + b == b;
    }
  }

  lemma {:induction false} GcCountZero(t: seq<Event>)
    requires forall i :: 0 <= i < |t| ==> !t[i].DedupeGc?
    ensures GcCount(t) == 0
  {
    if |t| > 0 {
      GcCountZero(t[1..]);
    }
  }

  /** `e` creates a deduplicated archive (the `dedupe c` command). */
  predicate IsDedupeCreate(e: Event) {
    e.RunBackupTool? && e.backupHandler == DedupeArchive
  }

  /** Every `dedupe c` in the trace comes after a GC in that trace, unless
      the GC had already run (`done`) before the trace began. */
  predicate GcGuarded(done: bool, t: seq<Event>) {
    forall j :: 0 <= j < |t| && IsDedupeCreate(t[j]) ==> done || GcCount(t[..j]) > 0
  }

  /** A trace without `dedupe c` is guarded whatever came before. */
  lemma NoDedupeIsGuarded(done: bool, t: seq<Event>)
    requires forall j :: 0 <= j < |t| ==> !IsDedupeCreate(t[j])
    ensures GcGuarded(done, t)
  {
  }

  /** Guarded pieces stay guarded when chained, provided the second piece's
      starting state was reached by the first piece (or held before it). */
  lemma {:induction false} GcGuardedAppend(d0: bool, a: seq<Event>, d1: bool, b: seq<Event>)
    requires GcGuarded(d0, a) && GcGuarded(d1, b)
    requires d1 ==> d0 || GcCount(a) > 0
    ensures GcGuarded(d0, a + b)
  {
    forall j | 0 <= j < |a + b| && IsDedupeCreate((a + b)[j])
      ensures d0 || GcCount((a + b)[..j]) > 0
    {
      if j < |a| {
        assert (a + b)[..j] == a[..j];
        assert a[j] == (a + b)[j];
      } else {
        var k := j - |a|;
        assert (a + b)[..j] == a + b[..k];
        assert b[k] == (a + b)[j];
        GcCountAppend(a, b[..k]);
      }
    }
  }

  /** The GC bookkeeping of one operation run from session `s` to outcome
      `o`: the bit is never cleared, a GC happens exactly when the operation
      sets the bit, and every `dedupe c` it issues is guarded. */
  predicate GcStep(s: Session, o: Outcome) {
    && (s.gcDone ==> o.session.gcDone)
    && GcCount(o.trace) == (if !s.gcDone && o.session.gcDone then 1 else 0)
    && GcGuarded(s.gcDone, o.trace)
  }

  /** Actions that run no backup tool keep the GC bookkeeping and write no
      artifact, whatever the stem. */
  lemma ToolFreeActions(s: Session, o: Outcome, source: string, stem: string)
    requires NoBackupTools(o.trace) && o.session.gcDone == s.gcDone
    ensures GcStep(s, o) && ToolsWrite(o.trace, source, stem)
  {
    NoBackupToolsGcStep(s, o);
  }

  /** The GC bookkeeping depends on the starting session's bit alone. */
  lemma GcStepSameBit(s: Session, s1: Session, o: Outcome)
    requires s1.gcDone == s.gcDone && GcStep(s1, o)
    ensures GcStep(s, o)
  {
  }

  /** Two operations run back to back keep the GC bookkeeping: still at most
      one GC, still every `dedupe c` guarded. */
  lemma {:induction false} GcStepChain(s: Session, o1: Outcome, o2: Outcome, status: int)
    requires GcStep(s, o1) && GcStep(o1.session, o2)
    ensures GcStep(s, Outcome(o2.session, status, o1.trace + o2.trace))
  {
    GcCountAppend(o1.trace, o2.trace);
    GcGuardedAppend(s.gcDone, o1.trace, o1.session.gcDone, o2.trace);
  }

  /** Past index `k` the trace holds nothing but progress reports. */
  predicate OnlyReportsAfter(t: seq<Event>, k: nat) {
    forall i :: k < i < |t| ==> t[i].Progress?
  }

  /** Past index `k` the trace holds nothing but progress reports, except
      that its last action may be the unmount of `mp`. */
  predicate ReportsThenUnmount(t: seq<Event>, k: nat, mp: string) {
    forall i :: k < i < |t| ==> t[i].Progress? || (i == |t| - 1 && t[i] == Unmount(mp))
  }

  /** A run whose tail is only reports, framed by `pre` and an optional
      unmount, is followed by reports and at most that unmount. */
  lemma {:induction false} FramedReports(pre: seq<Event>, body: seq<Event>, k: nat, mp: string, umount: bool)
    requires OnlyReportsAfter(body, k)
    ensures ReportsThenUnmount(pre + body + (if umount then [Unmount(mp)] else []), |pre| + k, mp)
  {
    var t := pre + body + (if umount then [Unmount(mp)] else []);
    forall i | |pre| + k < i < |t|
      ensures t[i].Progress? || (i == |t| - 1 && t[i] == Unmount(mp))
    {
      if i < |pre| + |body| {
        assert t[i] == body[i - |pre|];
      }
    }
  }

  /** Neither a GC nor a backup tool anywhere in the trace. */
  predicate NoBackupTools(t: seq<Event>) {
    forall i :: 0 <= i < |t| ==> !t[i].DedupeGc? && !t[i].RunBackupTool?
  }

  lemma {:induction false} NoBackupToolsAppend(a: seq<Event>, b: seq<Event>)
    requires NoBackupTools(a) && NoBackupTools(b)
    ensures NoBackupTools(a + b)
  {
    forall i | 0 <= i < |a + b|
      ensures !(a + b)[i].DedupeGc? && !(a + b)[i].RunBackupTool?
    {
      if i < |a| {
        assert (a + b)[i] == a[i];
      } else {
        assert (a + b)[i] == b[i - |a|];
      }
    }
  }

  /** An operation that runs no backup tool and leaves the bit alone keeps
      the GC bookkeeping trivially. */
  lemma NoBackupToolsGcStep(s: Session, o: Outcome)
    requires NoBackupTools(o.trace) && o.session.gcDone == s.gcDone
    ensures GcStep(s, o)
  {
    GcCountZero(o.trace);
    NoDedupeIsGuarded(s.gcDone, o.trace);
  }

  /** Status-only actions wrapped around an operation keep its GC bookkeeping. */
  lemma {:induction false} GcStepFramed(s: Session, pre: seq<Event>, o: Outcome, post: seq<Event>, status: int)
    requires GcStep(s, o) && NoBackupTools(pre) && NoBackupTools(post)
    ensures GcStep(s, Outcome(o.session, status, pre + o.trace + post))
  {
    NoBackupToolsGcStep(s, Outcome(s, 0, pre));
    NoBackupToolsGcStep(o.session, Outcome(o.session, 0, post));
    GcStepChain(s, Outcome(s, 0, pre), o, 0);
    GcStepChain(s, Outcome(o.session, 0, pre + o.trace), Outcome(o.session, 0, post), status);
  }

  /** No determinate progress report in the trace. */
  predicate NoProgress(t: seq<Event>) {
    forall i :: 0 <= i < |t| ==> !t[i].Progress?
  }

  lemma {:induction false} NoProgressAppend(a: seq<Event>, b: seq<Event>)
    requires NoProgress(a) && NoProgress(b)
    ensures NoProgress(a + b)
  {
    forall i | 0 <= i < |a + b|
      ensures !(a + b)[i].Progress?
    {
      if i < |a| {
        assert (a + b)[i] == a[i];
      } else {
        assert (a + b)[i] == b[i - |a|];
      }
    }
  }

  /** No raw image written anywhere in the trace. */
  predicate NoRawBackup(t: seq<Event>) {
    forall i :: 0 <= i < |t| ==> !t[i].RawBackup?
  }

  lemma {:induction false} NoRawBackupAppend(a: seq<Event>, b: seq<Event>)
    requires NoRawBackup(a) && NoRawBackup(b)
    ensures NoRawBackup(a + b)
  {
    forall i | 0 <= i < |a + b|
      ensures !(a + b)[i].RawBackup?
    {
      if i < |a| {
        assert (a + b)[i] == a[i];
      } else {
        assert (a + b)[i] == b[i - |a|];
      }
    }
  }

  /** Every archiving tool in the trace reads `source` and writes beside `stem`. */
  predicate ToolsWrite(t: seq<Event>, source: string, stem: string) {
    forall i :: 0 <= i < |t| && t[i].RunBackupTool? ==> t[i].source == source && t[i].stem == stem
  }

  lemma {:induction false} ToolsWriteAppend(a: seq<Event>, b: seq<Event>, source: string, stem: string)
    requires ToolsWrite(a, source, stem) && ToolsWrite(b, source, stem)
    ensures ToolsWrite(a + b, source, stem)
  {
    forall i | 0 <= i < |a + b| && (a + b)[i].RunBackupTool?
      ensures (a + b)[i].source == source && (a + b)[i].stem == stem
    {
      if i < |a| {
        assert (a + b)[i] == a[i];
      } else {
        assert (a + b)[i] == b[i - |a|];
      }
    }
  }

  /** A tool run framed by actions that run no tool keeps its GC
      bookkeeping, writes no raw image and still writes only the one
      artifact. */
  lemma {:induction false} FramedToolRun(s: Session, pre: seq<Event>, o: Outcome, post: seq<Event>, source: string, stem: string)
    requires NoBackupTools(pre) && NoRawBackup(pre) && NoBackupTools(post) && NoRawBackup(post)
    requires GcStep(s, o) && NoRawBackup(o.trace) && ToolsWrite(o.trace, source, stem)
    ensures var t := pre + o.trace + post;
      GcStep(s, Outcome(o.session, o.status, t)) && NoRawBackup(t) && ToolsWrite(t, source, stem)
  {
    GcStepFramed(s, pre, o, post, o.status);
    NoRawBackupAppend(pre, o.trace);
    NoRawBackupAppend(pre + o.trace, post);
    ToolsWriteAppend(pre, o.trace, source, stem);
    ToolsWriteAppend(pre + o.trace, post, source, stem);
  }
}
