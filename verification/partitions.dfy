/** Backing up and restoring one partition: the raw image path for flash
    partitions, and the mount / handler / unmount sequence for the rest,
    including where the artifact of a partition is written and found. */
module Partitions {
  import opened Paths
  import opened Model
  import opened Formats
  import opened Progress
  import opened Handlers
  import opened Probe

  /** The backup directory that means "stream through stdin/stdout". */
  const Stream: string := "-"
  const StdoutPath: string := "/proc/self/fd/1"
  const StdinPath: string := "/proc/self/fd/0"

  /** Volume types imaged raw rather than archived. */
  predicate IsRawFsType(fs: string) {
    fs == "mtd" || fs == "bml" || fs == "emmc"
  }

  /** The volume at `root` exists and has a type; others are skipped. */
  predicate HasTypedVolume(env: Env, root: string) {
    root in env.volumes && env.volumes[root].fsType.Some?
  }

  /** The volume at `root` exists and is imaged raw. */
  predicate IsRawVolume(env: Env, root: string) {
    HasTypedVolume(env, root) && IsRawFsType(env.volumes[root].fsType.value)
  }

  // ---------------------------------------------------------------- naming

  /** The filesystem label of an artifact stem: what the mount table says,
      or `auto` when it does not say. */
  function FsLabel(env: Env, mp: string): string {
    match MountedFs(env, mp)
    case Some(fs) => fs
    case None => "auto"
  }

  /** Where a partition's archive is written: stdout when streaming,
      otherwise `<dir>/<name>.<fs>`, the strategy adding its own suffix. */
  function BackupStem(env: Env, dir: string, mp: string): (stem: string)
    ensures dir == Stream ==> stem == StdoutPath
    ensures dir != Stream ==> |stem| > |dir| + 1 && stem[..|dir| + 1] == dir + "/"
  {
    if dir == Stream then StdoutPath
    else
      var stem := dir + "/" + Basename(mp) + "." + FsLabel(env, mp);
      assert stem == (dir + "/") + (Basename(mp) + "." + FsLabel(env, mp));
      stem
  }

  /** The stem sits directly in the backup directory, named after the
      partition and its filesystem. */
  lemma {:induction false} StemNamesPartition(env: Env, dir: string, mp: string)
    requires dir != Stream && WellFormedDir(dir)
    requires Basename(mp) != "/" && '/' !in FsLabel(env, mp)
    ensures Dirname(BackupStem(env, dir, mp)) == dir
    ensures Basename(BackupStem(env, dir, mp)) == Basename(mp) + "." + FsLabel(env, mp)
  {
    var leaf := Basename(mp) + "." + FsLabel(env, mp);
    assert forall k :: 0 <= k < |leaf| ==> leaf[k] != '/' by {
      forall k | 0 <= k < |leaf|
        ensures leaf[k] != '/'
      {
        var n := |Basename(mp)|;
        if k < n {
          assert leaf[k] == Basename(mp)[k];
        } else if k > n {
          assert leaf[k] == FsLabel(env, mp)[k - n - 1];
        }
      }
    }
    assert BackupStem(env, dir, mp) == dir + "/" + leaf;
    DirnameOfChild(dir, leaf);
    BasenameOfChild(dir, leaf);
  }

  /** Where a raw partition image is written. */
  function RawImagePath(dir: string, root: string): (path: string)
    ensures dir == Stream ==> path == StdoutPath
  {
    if dir == Stream then StdoutPath else dir + "/" + Basename(root) + ".img"
  }

  /** Where a raw partition image is read back from: the backup directory
      and the root path glued together, or the stream marker itself. */
  function RawRestoreSource(dir: string, root: string): (path: string)
    ensures dir == Stream ==> path == Stream
  {
    if dir == Stream then Stream else dir + root + ".img"
  }

  /** For a top-level partition `/<name>` the raw image is read back from
      the file it was written to. */
  lemma {:induction false} RawImageRoundTrip(dir: string, name: string)
    requires dir != Stream && Component(name)
    ensures RawRestoreSource(dir, "/" + name) == RawImagePath(dir, "/" + name)
  {
    assert Basename("/" + name) == name by {
      assert "/" + name == "" + "/" + name;
      BasenameOfChild("", name);
    }
    assert RawRestoreSource(dir, "/" + name) == dir + ("/" + name) + ".img";
    assert dir + ("/" + name) == dir + "/" + name;
  }

  // ---------------------------------------------------------------- backup

  /** Strategy `h` ran on the artifact of `mp`: its tool follows the
      mount, the pre-scan and the GC it may need, only progress reports and
      at most a final unmount follow it, and the outcome's status is the
      tool's. */
  predicate RanStrategy(env: Env, gcDone: bool, h: BackupHandler, dir: string, mp: string, o: Outcome) {
    var tool := RunBackupTool(h, mp, BackupStem(env, dir, mp));
    var k := if h == DedupeArchive && !gcDone then 3 else 2;
    && |o.trace| > k && o.trace[k] == tool && ReportsThenUnmount(o.trace, k, mp)
    && o.status == ToolStatus(env, tool, h != TarDump)
  }

  /** Backs up the partition mounted at `mp` with a strategy: mount (a
      failure returns 1), pre-scan, choose the strategy (none returns -2,
      still mounted), run it, unmount when asked whatever it returned, and
      return its status. */
  function BackupPartitionExtended(env: Env, s: Session, dir: string, mp: string, umount: bool): (o: Outcome)
    ensures |o.trace| >= 1 && o.trace[0] == Mount(mp)
    ensures env.status(Mount(mp)) != 0 ==> o.status == 1 && o.trace == [Mount(mp)] && o.session == s
    ensures env.status(Mount(mp)) == 0 ==>
      |o.trace| >= 2 && o.trace[1] == Scan(mp)
      && o.session.filesTotal == env.entries(mp, IsDataOnMedia(env, mp))
    ensures env.status(Mount(mp)) == 0 && MountedRecord(env, mp).None? ==> o.status == -2 && o.trace == [Mount(mp), Scan(mp)]
    ensures env.status(Mount(mp)) == 0 && MountedRecord(env, mp).Some? ==>
      (umount <==> o.trace[|o.trace| - 1] == Unmount(mp))
    ensures env.status(Mount(mp)) == 0 && GetBackupHandler(env, s, mp).Some? ==>
      RanStrategy(env, s.gcDone, GetBackupHandler(env, s, mp).value, dir, mp, o)
    ensures ToolsWrite(o.trace, mp, BackupStem(env, dir, mp)) && NoRawBackup(o.trace)
    ensures o.session.forced == s.forced && o.session.defaultHandler == s.defaultHandler
    ensures s.defaultHandler != DedupeArchive ==> o.session.gcDone == s.gcDone
    ensures GcStep(s, o)
  {
    if env.status(Mount(mp)) != 0 then
      MountActionsRunNoTool(mp, umount);
      ToolFreeActions(s, Outcome(s, 1, [Mount(mp)]), mp, BackupStem(env, dir, mp));
      Outcome(s, 1, [Mount(mp)])
    else MountedBackup(env, s, dir, mp, umount)
  }

  /** The extended backup once the partition is mounted. */
  function MountedBackup(env: Env, s: Session, dir: string, mp: string, umount: bool): (o: Outcome)
    ensures |o.trace| >= 2 && o.trace[0] == Mount(mp) && o.trace[1] == Scan(mp)
    ensures o.session.filesTotal == env.entries(mp, IsDataOnMedia(env, mp))
    ensures MountedRecord(env, mp).None? ==> o.status == -2 && o.trace == [Mount(mp), Scan(mp)]
    ensures MountedRecord(env, mp).Some? ==> (umount <==> o.trace[|o.trace| - 1] == Unmount(mp))
    ensures GetBackupHandler(env, s, mp).Some? ==> RanStrategy(env, s.gcDone, GetBackupHandler(env, s, mp).value, dir, mp, o)
    ensures ToolsWrite(o.trace, mp, BackupStem(env, dir, mp)) && NoRawBackup(o.trace)
    ensures o.session.forced == s.forced && o.session.defaultHandler == s.defaultHandler
    ensures s.defaultHandler != DedupeArchive ==> o.session.gcDone == s.gcDone
    ensures GcStep(s, o)
  {
    var s1 := ComputeDirectoryStats(s, env.entries(mp, IsDataOnMedia(env, mp)));
    BackupHandlerIgnoresCounters(env, s, s1, mp);
    match GetBackupHandler(env, s1, mp)
    case None =>
      MountActionsRunNoTool(mp, umount);
      ToolFreeActions(s, Outcome(s1, -2, [Mount(mp), Scan(mp)]), mp, BackupStem(env, dir, mp));
      Outcome(s1, -2, [Mount(mp), Scan(mp)])
    case Some(h) => RunChosenBackup(env, s, h, dir, mp, umount)
  }

  /** The extended backup of a mounted partition once strategy `h` is
      chosen: the mount and pre-scan, the strategy's own actions, then the
      unmount when asked. */
  function RunChosenBackup(env: Env, s: Session, h: BackupHandler, dir: string, mp: string, umount: bool): (o: Outcome)
    ensures |o.trace| >= 2 && o.trace[0] == Mount(mp) && o.trace[1] == Scan(mp)
    ensures o.session.filesTotal == env.entries(mp, IsDataOnMedia(env, mp))
    ensures umount <==> o.trace[|o.trace| - 1] == Unmount(mp)
    ensures ToolsWrite(o.trace, mp, BackupStem(env, dir, mp)) && NoRawBackup(o.trace)
    ensures o.session.forced == s.forced && o.session.defaultHandler == s.defaultHandler
    ensures o.session.gcDone == (s.gcDone || h == DedupeArchive)
    ensures GcStep(s, o)
    ensures RanStrategy(env, s.gcDone, h, dir, mp, o)
  {
    var s1 := ComputeDirectoryStats(s, env.entries(mp, IsDataOnMedia(env, mp)));
    ScannedBackupRunsStrategy(env, s1, h, dir, mp, umount);
    ScannedBackupUnmounts(env, s1, h, dir, mp, umount);
    ScannedBackupTools(env, s1, h, dir, mp, umount);
    GcStepSameBit(s, s1, ScannedBackup(env, s1, h, dir, mp, umount));
    ScannedBackup(env, s1, h, dir, mp, umount)
  }

  /** The same, from the session the pre-scan left. */
  function ScannedBackup(env: Env, s1: Session, h: BackupHandler, dir: string, mp: string, umount: bool): (o: Outcome)
    ensures |o.trace| >= 2 && o.trace[0] == Mount(mp) && o.trace[1] == Scan(mp)
    ensures o.session.filesTotal == s1.filesTotal
    ensures o.session.forced == s1.forced && o.session.defaultHandler == s1.defaultHandler
    ensures o.session.gcDone == (s1.gcDone || h == DedupeArchive)
    ensures o.status == ToolStatus(env, RunBackupTool(h, mp, BackupStem(env, dir, mp)), h != TarDump)
  {
    Framed(RunBackupHandler(env, s1, h, mp, BackupStem(env, dir, mp), !env.hideProgress), mp, umount)
  }

  /** A strategy run framed by the mount and pre-scan before it and the
      unmount after it when asked. */
  function Framed(r: Outcome, mp: string, umount: bool): (o: Outcome)
    ensures o.session == r.session && o.status == r.status
    ensures |o.trace| >= 2 && o.trace[0] == Mount(mp) && o.trace[1] == Scan(mp)
  {
    Outcome(r.session, r.status, [Mount(mp), Scan(mp)] + r.trace + (if umount then [Unmount(mp)] else []))
  }

  /** Framing keeps the tool at its place, two actions later, and adds
      nothing after it but the unmount. */
  lemma FramedRun(r: Outcome, j: nat, tool: Event, mp: string, umount: bool)
    requires j < |r.trace| && r.trace[j] == tool && OnlyReportsAfter(r.trace, j)
    ensures var t := Framed(r, mp, umount).trace;
      |t| > j + 2 && t[j + 2] == tool && ReportsThenUnmount(t, j + 2, mp)
  {
    var t := Framed(r, mp, umount).trace;
    assert t[j + 2] == r.trace[j];
    FramedReports([Mount(mp), Scan(mp)], r.trace, j, mp, umount);
  }

  /** The scanned backup runs the tool of `h` right after the mount, the
      pre-scan and the GC it may need; only progress reports and at most
      the unmount follow it. */
  lemma ScannedBackupRunsStrategy(env: Env, s1: Session, h: BackupHandler, dir: string, mp: string, umount: bool)
    ensures RanStrategy(env, s1.gcDone, h, dir, mp, ScannedBackup(env, s1, h, dir, mp, umount))
  {
    var r := RunBackupHandler(env, s1, h, mp, BackupStem(env, dir, mp), !env.hideProgress);
    var j := if h == DedupeArchive && !s1.gcDone then 1 else 0;
    FramedRun(r, j, RunBackupTool(h, mp, BackupStem(env, dir, mp)), mp, umount);
  }

  /** The scanned backup ends with the unmount exactly when one was asked for. */
  lemma ScannedBackupUnmounts(env: Env, s1: Session, h: BackupHandler, dir: string, mp: string, umount: bool)
    ensures UnmountLastIff(ScannedBackup(env, s1, h, dir, mp, umount).trace, mp, umount)
  {
    FramedLast(RunBackupHandler(env, s1, h, mp, BackupStem(env, dir, mp), !env.hideProgress), mp, umount);
  }

  /** The trace is not empty and ends with the unmount of `mp` exactly
      when one was asked for. */
  predicate UnmountLastIff(t: seq<Event>, mp: string, umount: bool) {
    |t| >= 1 && (umount <==> t[|t| - 1] == Unmount(mp))
  }

  /** A run that does not end with an unmount, once framed, ends with the
      unmount exactly when one was asked for. */
  lemma FramedLast(r: Outcome, mp: string, umount: bool)
    requires |r.trace| >= 1 && !r.trace[|r.trace| - 1].Unmount?
    ensures UnmountLastIff(Framed(r, mp, umount).trace, mp, umount)
  {
    var t := Framed(r, mp, umount).trace;
    if !umount {
      assert t[|t| - 1] == r.trace[|r.trace| - 1];
    }
  }

  /** Mounting, scanning and unmounting run no backup tool and write no raw
      image. */
  lemma MountActionsRunNoTool(mp: string, umount: bool)
    ensures NoBackupTools([Mount(mp)]) && NoRawBackup([Mount(mp)])
    ensures NoBackupTools([Mount(mp), Scan(mp)]) && NoRawBackup([Mount(mp), Scan(mp)])
    ensures var post := if umount then [Unmount(mp)] else [];
      NoBackupTools(post) && NoRawBackup(post)
  {
  }

  /** The scanned backup keeps the GC bookkeeping, writes no raw image and
      runs its tool on the one artifact. */
  lemma ScannedBackupTools(env: Env, s1: Session, h: BackupHandler, dir: string, mp: string, umount: bool)
    ensures var o := ScannedBackup(env, s1, h, dir, mp, umount);
      ToolsWrite(o.trace, mp, BackupStem(env, dir, mp)) && NoRawBackup(o.trace) && GcStep(s1, o)
  {
    var r := RunBackupHandler(env, s1, h, mp, BackupStem(env, dir, mp), !env.hideProgress);
    var post := if umount then [Unmount(mp)] else [];
    BackupHandlerGcStep(env, s1, h, mp, BackupStem(env, dir, mp), !env.hideProgress);
    MountActionsRunNoTool(mp, umount);
    FramedToolRun(s1, [Mount(mp), Scan(mp)], r, post, mp, BackupStem(env, dir, mp));
    assert ScannedBackup(env, s1, h, dir, mp, umount) == Outcome(r.session, r.status, [Mount(mp), Scan(mp)] + r.trace + post);
  }

  /** Backing a yaffs2 partition up to the stream hands the image maker the
      stdout path as its stem. */
  lemma StreamedYaffs2Image(env: Env, s: Session, mp: string)
    requires HasTypedVolume(env, mp) && !IsRawVolume(env, mp) && env.status(Mount(mp)) == 0
    requires MountedFs(env, mp) == Some("yaffs2") && !IsDataOnMedia(env, mp) && !IsForced(s.forced)
    ensures var o := BackupPartition(env, s, Stream, mp);
      |o.trace| > 2 && o.trace[2] == RunBackupTool(Yaffs2Image, mp, StdoutPath)
  {
    assert GetBackupHandler(env, s, mp) == Some(Yaffs2Image);
    var o := BackupPartitionExtended(env, s, Stream, mp, true);
    assert RanStrategy(env, s.gcDone, Yaffs2Image, Stream, mp, o);
  }

  /** Backs up the partition at `root`: nothing for an absent or untyped
      volume, a raw image for flash partitions (no strategy consulted), the
      strategy sequence with unmount otherwise. */
  function BackupPartition(env: Env, s: Session, dir: string, root: string): (o: Outcome)
    ensures !HasTypedVolume(env, root) ==> o == Outcome(s, 0, [])
    ensures IsRawVolume(env, root) ==>
      o.session == s && o.trace == [RawBackup(env.volumes[root], RawImagePath(dir, root))]
      && o.status == env.status(o.trace[0])
    ensures HasTypedVolume(env, root) && !IsRawVolume(env, root) ==> o == BackupPartitionExtended(env, s, dir, root, true)
    ensures forall i :: 0 <= i < |o.trace| && o.trace[i].RunBackupTool? ==> o.trace[i].stem == BackupStem(env, dir, root)
    ensures forall i :: 0 <= i < |o.trace| && o.trace[i].RawBackup? ==> o.trace[i].dest == RawImagePath(dir, root)
    ensures o.session.forced == s.forced && o.session.defaultHandler == s.defaultHandler
    ensures s.defaultHandler != DedupeArchive ==> o.session.gcDone == s.gcDone
    ensures GcStep(s, o)
  {
    if !HasTypedVolume(env, root) then
      NoBackupToolsGcStep(s, Outcome(s, 0, []));
      Outcome(s, 0, [])
    else if IsRawVolume(env, root) then
      var ev := RawBackup(env.volumes[root], RawImagePath(dir, root));
      NoBackupToolsGcStep(s, Outcome(s, env.status(ev), [ev]));
      Outcome(s, env.status(ev), [ev])
    else BackupPartitionExtended(env, s, dir, root, true)
  }

  // --------------------------------------------------------------- restore

  /** Where a restore finds a partition's data, and what finding it fixed. */
  datatype Artifact =
    | Skip
    | Found(image: string, fs: Option<string>, handler: Option<RestoreHandler>)

  /** The legacy artifact `<dir>/<name>.img`. */
  function LegacyImage(dir: string, name: string): string {
    dir + "/" + name + ".img"
  }

  /** Locates the artifact of `mp`: stdin with tar when streaming; the
      legacy image with nothing fixed; else the first probed candidate with
      its filesystem and strategy; else nothing. */
  function LocateArtifact(env: Env, dir: string, mp: string): (a: Artifact)
    ensures dir == Stream ==> a.Found? && a.image == StdinPath && a.handler == Some(TarExtract)
    ensures dir == Stream ==> a.fs == (if mp in env.volumes then env.volumes[mp].fsType else None)
    ensures dir != Stream && env.fileExists(LegacyImage(dir, Basename(mp))) ==>
      a == Found(LegacyImage(dir, Basename(mp)), None, None)
    ensures dir != Stream && !env.fileExists(LegacyImage(dir, Basename(mp))) ==>
      (a.Skip? <==> forall j :: 0 <= j < 32 ==> !env.fileExists(Candidates(dir, Basename(mp))[j].path))
    ensures dir != Stream && !env.fileExists(LegacyImage(dir, Basename(mp))) ==>
      var p := ProbeArtifact(env.fileExists, dir, Basename(mp));
      p.Some? ==> a == Found(p.value.path, Some(p.value.fs), Some(p.value.handler))
    ensures a.Found? && a.fs.Some? && dir != Stream ==> a.fs.value in Filesystems && a.handler.Some?
  {
    if dir == Stream then
      Found(StdinPath, if mp in env.volumes then env.volumes[mp].fsType else None, Some(TarExtract))
    else
      var name := Basename(mp);
      if env.fileExists(LegacyImage(dir, name)) then Found(LegacyImage(dir, name), None, None)
      else
        match ProbeArtifact(env.fileExists, dir, name)
        case None => Skip
        case Some(c) => Found(c.path, Some(c.fs), Some(c.handler))
  }

  /** The extended restore of `mp` is defined: whenever it gets past the
      artifact search it reads the volume's mount point and type, so the
      volume must exist and have a type. */
  predicate RestoreDefined(env: Env, dir: string, mp: string) {
    LocateArtifact(env, dir, mp).Found? ==> HasTypedVolume(env, mp)
  }

  /** The filesystem to format with: the located one, unless the volume is
      `auto` or is `/data` on a data-media device. */
  function FormatFs(env: Env, vol: Volume, located: Option<string>): (fs: Option<string>)
    ensures vol.fsType == Some("auto") || (vol.mountPoint == "/data" && env.dataMedia) ==> fs.None?
    ensures vol.fsType != Some("auto") && !(vol.mountPoint == "/data" && env.dataMedia) ==> fs == located
    ensures fs.Some? ==> fs == located
  {
    if vol.fsType == Some("auto") then None
    else if vol.mountPoint == "/data" && env.dataMedia then None
    else located
  }

  /** How the partition is emptied before restoring: a plain format of the
      mount point, or a device format with the chosen filesystem. */
  function FormatEvent(vol: Volume, mp: string, fs: Option<string>): Event {
    match fs
    case None => FormatVolume(mp)
    case Some(f) => FormatDevice(vol.blkDevice, mp, f)
  }

  /** The restore strategy: the undumper when streaming, else the one fixed
      by the artifact search, else the legacy fallback by volume. */
  function ChooseRestoreHandler(env: Env, dir: string, mp: string, located: Option<RestoreHandler>): (h: Option<RestoreHandler>)
    ensures dir == Stream ==> h == Some(TarUndump)
    ensures dir != Stream && located.Some? ==> h == located
    ensures dir != Stream && located.None? ==> h == GetRestoreHandler(env, mp)
  {
    if dir == Stream then Some(TarUndump)
    else if located.Some? then located
    else GetRestoreHandler(env, mp)
  }

  /** Restore strategy `h` ran from `image`: its tool follows the format
      and the mount, only progress reports and at most a final unmount
      follow it, and the outcome's status is the tool's. */
  predicate RanRestoreStrategy(env: Env, h: RestoreHandler, image: string, mp: string, o: Outcome) {
    var tool := RunRestoreTool(h, image, mp);
    && |o.trace| >= 3 && o.trace[2] == tool && ReportsThenUnmount(o.trace, 2, mp)
    && o.status == ToolStatus(env, tool, h != TarUndump)
  }

  /** Restores the partition mounted at `mp` with a strategy: skip (0) when
      no artifact is found; otherwise format (a failure returns its status),
      mount (likewise), choose the strategy (none returns -2), run it (a
      failure returns its status, still mounted), then unmount when asked
      and return 0. */
  function RestorePartitionExtended(env: Env, s: Session, dir: string, mp: string, umount: bool): (o: Outcome)
    requires RestoreDefined(env, dir, mp)
    ensures LocateArtifact(env, dir, mp).Skip? ==> o == Outcome(s, 0, [])
    ensures LocateArtifact(env, dir, mp).Found? ==>
      var a := LocateArtifact(env, dir, mp);
      var vol := env.volumes[mp];
      var fmt := FormatEvent(vol, mp, FormatFs(env, vol, a.fs));
      && |o.trace| >= 1 && o.trace[0] == fmt
      && (env.status(fmt) != 0 ==> o.status == env.status(fmt) && |o.trace| == 1)
      && (env.status(fmt) == 0 ==> |o.trace| >= 2 && o.trace[1] == Mount(mp))
      && (env.status(fmt) == 0 && env.status(Mount(mp)) != 0 ==> o.status == env.status(Mount(mp)) && |o.trace| == 2)
      && (forall i :: 0 <= i < |o.trace| && o.trace[i].RunRestoreTool? ==>
            i == 2 && env.status(fmt) == 0 && env.status(Mount(mp)) == 0
            && o.trace[i].image == a.image && o.trace[i].target == mp
            && Some(o.trace[i].restoreHandler) == ChooseRestoreHandler(env, dir, mp, a.handler))
      && (env.status(fmt) == 0 && env.status(Mount(mp)) == 0 && ChooseRestoreHandler(env, dir, mp, a.handler).None? ==>
            o.status == -2 && |o.trace| == 2)
      && (env.status(fmt) == 0 && env.status(Mount(mp)) == 0 && ChooseRestoreHandler(env, dir, mp, a.handler).Some? ==>
            RanRestoreStrategy(env, ChooseRestoreHandler(env, dir, mp, a.handler).value, a.image, mp, o))
    ensures o.status == 0 && umount && LocateArtifact(env, dir, mp).Found? ==> o.trace[|o.trace| - 1] == Unmount(mp)
    ensures forall i :: 0 <= i < |o.trace| && o.trace[i].Unmount? ==> umount && o.status == 0
    ensures !umount ==> forall i :: 0 <= i < |o.trace| ==> !o.trace[i].Unmount?
    ensures o.session.forced == s.forced && o.session.defaultHandler == s.defaultHandler
    ensures o.session.gcDone == s.gcDone && o.session.filesTotal == s.filesTotal
    ensures NoBackupTools(o.trace)
    ensures s.filesTotal == 0 ==> NoProgress(o.trace)
  {
    match LocateArtifact(env, dir, mp)
    case Skip => Outcome(s, 0, [])
    case Found(image, located, handler) =>
      var vol := env.volumes[mp];
      var fmt := FormatEvent(vol, mp, FormatFs(env, vol, located));
      if env.status(fmt) != 0 then Outcome(s, env.status(fmt), [fmt])
      else if env.status(Mount(mp)) != 0 then Outcome(s, env.status(Mount(mp)), [fmt, Mount(mp)])
      else
        match ChooseRestoreHandler(env, dir, mp, handler)
        case None => Outcome(s, -2, [fmt, Mount(mp)])
        case Some(h) => RunChosenRestore(env, s, h, image, fmt, mp, umount)
  }

  /** The part of the extended restore after the strategy is chosen: the
      format and mount before it, the strategy's own actions, then the
      unmount when asked and the strategy succeeded. */
  function RunChosenRestore(env: Env, s: Session, h: RestoreHandler, image: string, fmt: Event, mp: string, umount: bool): (o: Outcome)
    requires fmt.FormatVolume? || fmt.FormatDevice?
    ensures |o.trace| >= 3 && o.trace[0] == fmt && o.trace[1] == Mount(mp) && o.trace[2] == RunRestoreTool(h, image, mp)
    ensures forall i :: 0 <= i < |o.trace| && o.trace[i].RunRestoreTool? ==> i == 2
    ensures o.status == 0 && umount ==> o.trace[|o.trace| - 1] == Unmount(mp)
    ensures !umount ==> forall i :: 0 <= i < |o.trace| ==> !o.trace[i].Unmount?
    ensures forall i :: 0 <= i < |o.trace| && o.trace[i].Unmount? ==> umount && o.status == 0
    ensures RanRestoreStrategy(env, h, image, mp, o)
    ensures o.session.forced == s.forced && o.session.defaultHandler == s.defaultHandler
    ensures o.session.gcDone == s.gcDone && o.session.filesTotal == s.filesTotal
    ensures NoBackupTools(o.trace)
    ensures s.filesTotal == 0 ==> NoProgress(o.trace)
  {
    var r := RunRestoreHandler(env, s, h, image, mp, !env.hideProgress);
    var post := if r.status == 0 && umount then [Unmount(mp)] else [];
    var t := [fmt, Mount(mp)] + r.trace + post;
    FramedReports([fmt, Mount(mp)], r.trace, 0, mp, r.status == 0 && umount);
    forall i | 0 <= i < |t|
      ensures !t[i].DedupeGc? && !t[i].RunBackupTool?
      ensures t[i].RunRestoreTool? ==> i == 2
      ensures t[i].Unmount? ==> umount && r.status == 0
      ensures t[i].Progress? ==> s.filesTotal != 0
    {
      if 2 <= i < 2 + |r.trace| {
        assert t[i] == r.trace[i - 2];
      } else if i >= 2 + |r.trace| {
        assert t[i] == post[i - 2 - |r.trace|];
      }
    }
    Outcome(r.session, r.status, t)
  }

  /** Restores the partition at `root`: nothing for an absent or untyped
      volume; for flash partitions erase (a failure stops before flashing)
      then flash `<dir><root>.img`; the strategy sequence with unmount
      otherwise. */
  function RestorePartition(env: Env, s: Session, dir: string, root: string): (o: Outcome)
    ensures !HasTypedVolume(env, root) ==> o == Outcome(s, 0, [])
    ensures IsRawVolume(env, root) ==>
      o.session == s && |o.trace| >= 1 && o.trace[0] == FormatVolume(root)
      && (env.status(FormatVolume(root)) != 0 ==> o.status == env.status(FormatVolume(root)) && |o.trace| == 1)
      && (env.status(FormatVolume(root)) == 0 ==>
            o.trace == [FormatVolume(root), RawRestore(env.volumes[root], RawRestoreSource(dir, root))]
            && o.status == env.status(o.trace[1]))
    ensures HasTypedVolume(env, root) && !IsRawVolume(env, root) ==> o == RestorePartitionExtended(env, s, dir, root, true)
    ensures o.session.forced == s.forced && o.session.defaultHandler == s.defaultHandler
    ensures o.session.gcDone == s.gcDone && o.session.filesTotal == s.filesTotal
    ensures NoBackupTools(o.trace)
    ensures s.filesTotal == 0 ==> NoProgress(o.trace)
  {
    if !HasTypedVolume(env, root) then Outcome(s, 0, [])
    else if IsRawVolume(env, root) then
      var erase := FormatVolume(root);
      if env.status(erase) != 0 then Outcome(s, env.status(erase), [erase])
      else
        var flash := RawRestore(env.volumes[root], RawRestoreSource(dir, root));
        Outcome(s, env.status(flash), [erase, flash])
    else RestorePartitionExtended(env, s, dir, root, true)
  }

  // ------------------------------------------------------------ round trip

  /** Backup then restore of a partition whose filesystem is one the prober
      knows: a directory holding just the artifact the backup wrote is
      located to that file, with the filesystem it was taken from and the
      strategy that undoes the one that wrote it. */
  lemma {:induction false} BackupArtifactIsLocated(env: Env, later: Env, dir: string, mp: string, h: BackupHandler)
    requires dir != Stream && h != TarDump
    requires MountedFs(env, mp).Some? && MountedFs(env, mp).value in Filesystems
    requires forall p :: later.fileExists(p) <==> p == BackupStem(env, dir, mp) + ArtifactSuffix(h)
    ensures LocateArtifact(later, dir, mp)
      == Found(BackupStem(env, dir, mp) + ArtifactSuffix(h), MountedFs(env, mp), Some(RestoreInverse(h)))
  {
    var name := Basename(mp);
    var fs := MountedFs(env, mp).value;
    var artifact := BackupStem(env, dir, mp) + ArtifactSuffix(h);
    assert artifact == dir + "/" + name + "." + fs + ArtifactSuffix(h);
    assert |LegacyImage(dir, name)| != |artifact|;
    BackupArtifactProbesToInverse(later.fileExists, dir, name, fs, h);
  }

  /** A partition whose filesystem the mount table did not report is backed
      up under the `.auto` stem, which the prober never tries: without a
      legacy image its restore is skipped. */
  lemma {:induction false} AutoArtifactIsSkipped(env: Env, later: Env, dir: string, mp: string, h: BackupHandler)
    requires dir != Stream && h != TarDump && MountedFs(env, mp).None?
    requires forall p :: later.fileExists(p) <==> p == BackupStem(env, dir, mp) + ArtifactSuffix(h)
    ensures LocateArtifact(later, dir, mp) == Skip
  {
    var name := Basename(mp);
    var artifact := BackupStem(env, dir, mp) + ArtifactSuffix(h);
    assert artifact == CandidatePath(dir, name, "auto", ArtifactSuffix(h));
    assert |LegacyImage(dir, name)| != |artifact|;
    SuffixOfBackupHandler(h);
    UnlistedFilesystemNotProbed(later.fileExists, dir, name, "auto", ArtifactSuffix(h));
  }
}
