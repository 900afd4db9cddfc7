/** The handler registry: which backup or restore strategy a partition gets,
    and what running a strategy does, including the content-store GC gate
    in front of the first deduplicated backup of a run. */
module Handlers {
  import opened Paths
  import opened Model
  import opened Formats
  import opened Progress

  /** Backup strategy for the partition mounted at `path`: `None` (NULL)
      when the volume or its mount is missing; otherwise data-on-media and a
      forced format take the default, yaffs2 takes the image maker, and
      everything else the default. A NULL mounted filesystem counts as not
      yaffs2. */
  function GetBackupHandler(env: Env, s: Session, path: string): (r: Option<BackupHandler>)
    ensures r.None? <==> MountedRecord(env, path).None?
    ensures r.Some? ==> r.value == s.defaultHandler || r.value == Yaffs2Image
    ensures r.Some? && (IsDataOnMedia(env, path) || IsForced(s.forced)) ==> r.value == s.defaultHandler
    ensures r.Some? && !IsDataOnMedia(env, path) && !IsForced(s.forced) && MountedFs(env, path) == Some("yaffs2")
      ==> r.value == Yaffs2Image
    ensures r.Some? && MountedFs(env, path) != Some("yaffs2") ==> r.value == s.defaultHandler
  {
    match MountedRecord(env, path)
    case None => None
    case Some(mv) =>
      if IsDataOnMedia(env, path) then Some(s.defaultHandler)
      else if IsForced(s.forced) then Some(s.defaultHandler)
      else if mv.filesystem == Some("yaffs2") then Some(Yaffs2Image)
      else Some(s.defaultHandler)
  }

  /** The strategy depends on the forced format and the default handler
      only, so the pre-scan's counters never change it. */
  lemma BackupHandlerIgnoresCounters(env: Env, s: Session, s1: Session, path: string)
    requires s1.forced == s.forced && s1.defaultHandler == s.defaultHandler
    ensures GetBackupHandler(env, s1, path) == GetBackupHandler(env, s, path)
  {
  }

  /** `/data` on a data-media device is backed up with the configured
      default even when its filesystem is yaffs2. */
  lemma DataMediaIgnoresYaffs2(env: Env, s: Session)
    requires env.dataMedia && MountedRecord(env, "/data").Some?
    ensures GetBackupHandler(env, s, "/data") == Some(s.defaultHandler)
  {
  }

  /** Restore strategy for the legacy `<name>.img` artifact: `None` when the
      volume or its mount is missing; data-on-media restores with tar; unless
      `ro.cwm.prefer_tar` is "true" the image extractor is used; with it, only
      yaffs2 still uses the image extractor. */
  function GetRestoreHandler(env: Env, path: string): (r: Option<RestoreHandler>)
    ensures r.None? <==> MountedRecord(env, path).None?
    ensures r.Some? ==> r.value == TarExtract || r.value == UnyaffsImage
    ensures r.Some? && IsDataOnMedia(env, path) ==> r.value == TarExtract
    ensures r.Some? && !IsDataOnMedia(env, path) ==>
      (r.value == UnyaffsImage <==> env.preferTar != "true" || MountedFs(env, path) == Some("yaffs2"))
  {
    match MountedRecord(env, path)
    case None => None
    case Some(mv) =>
      if IsDataOnMedia(env, path) then Some(TarExtract)
      else if env.preferTar != "true" then Some(UnyaffsImage)
      else if mv.filesystem == Some("yaffs2") then Some(UnyaffsImage)
      else Some(TarExtract)
  }

  /** The file suffix each backup strategy leaves beside its stem; the dumper
      writes to a stream and leaves none. */
  function ArtifactSuffix(h: BackupHandler): string {
    match h
    case Yaffs2Image => ".img"
    case TarArchive => ".tar"
    case TarGzArchive => ".tar.gz"
    case DedupeArchive => ".dup"
    case TarDump => ""
  }

  /** The restore strategy that undoes each backup strategy. */
  function RestoreInverse(h: BackupHandler): RestoreHandler {
    match h
    case Yaffs2Image => UnyaffsImage
    case TarArchive => TarExtract
    case TarGzArchive => TarGzExtract
    case DedupeArchive => DedupeExtract
    case TarDump => TarUndump
  }

  /** Every restore strategy undoes exactly one backup strategy. */
  lemma RestoreInverseBijective(r: RestoreHandler)
    ensures exists h :: RestoreInverse(h) == r
    ensures forall h1, h2 :: RestoreInverse(h1) == RestoreInverse(h2) ==> h1 == h2
  {
    match r
    case UnyaffsImage => assert RestoreInverse(Yaffs2Image) == r;
    case TarExtract => assert RestoreInverse(TarArchive) == r;
    case TarGzExtract => assert RestoreInverse(TarGzArchive) == r;
    case DedupeExtract => assert RestoreInverse(DedupeArchive) == r;
    case TarUndump => assert RestoreInverse(TarDump) == r;
  }

  /** The content store of an artifact: three directories up, then `blobs`. */
  function BlobDir(artifact: string): string {
    Dirname(Dirname(Dirname(artifact))) + "/blobs"
  }

  /** The directory whose `.dup` descriptors the GC scans: `backup` beside
      the content store. */
  function GcBackupDir(blobDir: string): string {
    Dirname(blobDir) + "/backup"
  }

  /** The content store and the scanned backup tree are siblings under
      the artifact's third ancestor. */
  lemma {:induction false} BlobStoreBesideBackups(artifact: string)
    ensures Dirname(BlobDir(artifact)) == Dirname(Dirname(Dirname(artifact)))
    ensures GcBackupDir(BlobDir(artifact)) == Dirname(Dirname(Dirname(artifact))) + "/backup"
  {
    var root := Dirname(Dirname(Dirname(artifact)));
    DirnameWellFormed(Dirname(Dirname(artifact)));
    assert root + "/blobs" == root + "/" + "blobs";
    DirnameOfChild(root, "blobs");
  }

  /** In the standard layout `<root>/backup/<run>/<file>`, the content store
      is `<root>/blobs` and the GC scans `<root>/backup`. */
  lemma {:induction false} StandardLayout(root: string, run: string, file: string)
    requires WellFormedDir(root) && Component(run) && Component(file)
    ensures BlobDir(root + "/backup/" + run + "/" + file) == root + "/blobs"
    ensures GcBackupDir(BlobDir(root + "/backup/" + run + "/" + file)) == root + "/backup"
  {
    var backups := root + "/backup";
    var runDir := backups + "/" + run;
    assert root + "/backup/" + run + "/" + file == runDir + "/" + file;
    assert backups == root + "/" + "backup";
    DirnameOfChild(runDir, file);
    DirnameOfChild(backups, run);
    DirnameOfChild(root, "backup");
    BlobStoreBesideBackups(root + "/backup/" + run + "/" + file);
  }

  /** A deduplicated backup of stem `p` and the restore of `p.dup` use the
      same content store. */
  lemma {:induction false} RestoreUsesBackupBlobStore(stem: string)
    requires |stem| > 0 && stem[|stem| - 1] != '/'
    ensures BlobDir(stem + ".dup") == BlobDir(stem)
  {
    DirnameOfExtended(stem, ".dup");
  }

  /** The trace shape of a piped backup: an optional GC, the tool, then
      progress reports only. */
  lemma {:induction false} PipedBackupTrace(done: bool, gc: seq<Event>, tool: Event, reports: seq<Event>)
    requires forall i :: 0 <= i < |reports| ==> reports[i].Progress?
    requires gc == [] || (|gc| == 1 && gc[0].DedupeGc?)
    requires IsDedupeCreate(tool) ==> done || gc != []
    requires tool.RunBackupTool?
    ensures GcCount(gc + [tool] + reports) == |gc|
    ensures GcGuarded(done, gc + [tool] + reports)
    ensures NoRawBackup(gc + [tool] + reports) && ToolsWrite(gc + [tool] + reports, tool.source, tool.stem)
    ensures OnlyReportsAfter(gc + [tool] + reports, |gc|)
  {
    var t := gc + [tool] + reports;
    forall j | 0 <= j < |t|
      ensures !t[j].RawBackup? && (t[j].RunBackupTool? ==> t[j] == tool)
      ensures j > |gc| ==> t[j].Progress?
    {
      if j < |gc| {
        assert t[j] == gc[j];
      } else if j > |gc| {
        assert t[j] == reports[j - |gc| - 1];
      }
    }
    GcCountZero(reports);
    GcCountZero([tool]);
    GcCountAppend(gc, [tool]);
    GcCountAppend(gc + [tool], reports);
    if gc != [] {
      assert GcCount(gc) == 1;
    }
    forall j | 0 <= j < |t| && IsDedupeCreate(t[j])
      ensures done || GcCount(t[..j]) > 0
    {
      assert j == |gc|;
      assert t[..j] == gc;
    }
  }

  /** The status a strategy's tool run reports: the tool's own status when
      it runs directly, and when it is piped, its exit status, or -1 when
      the pipe cannot be opened. */
  function ToolStatus(env: Env, tool: Event, piped: bool): int {
    if !piped then env.status(tool)
    else match env.output(tool)
      case LaunchFailed => -1
      case Launched(_, exit) => exit
  }

  /** Runs a backup strategy on the mounted partition `source`, writing
      next to `stem`. The deduplicating strategy first runs the content-store
      GC unless this run already did, and marks it done. */
  function RunBackupHandler(env: Env, s: Session, h: BackupHandler, source: string, stem: string, callback: bool): (o: Outcome)
    ensures |o.trace| >= 1 && !o.trace[|o.trace| - 1].Unmount?
    ensures var tool := RunBackupTool(h, source, stem);
      if h == DedupeArchive && !s.gcDone
      then o.trace[0] == DedupeGc(BlobDir(stem), GcBackupDir(BlobDir(stem))) && |o.trace| >= 2 && o.trace[1] == tool
      else o.trace[0] == tool
    ensures o.session.gcDone == (s.gcDone || h == DedupeArchive)
    ensures GcCount(o.trace) == (if h == DedupeArchive && !s.gcDone then 1 else 0)
    ensures NoRawBackup(o.trace) && ToolsWrite(o.trace, source, stem)
    ensures GcGuarded(s.gcDone, o.trace)
    ensures OnlyReportsAfter(o.trace, if h == DedupeArchive && !s.gcDone then 1 else 0)
    ensures h == TarDump ==> o.status == env.status(RunBackupTool(h, source, stem)) && |o.trace| == 1
    ensures h != TarDump && env.output(RunBackupTool(h, source, stem)).LaunchFailed? ==> o.status == -1
    ensures h != TarDump && env.output(RunBackupTool(h, source, stem)).Launched? ==>
      o.status == env.output(RunBackupTool(h, source, stem)).exit
    ensures o.status == ToolStatus(env, RunBackupTool(h, source, stem), h != TarDump)
    ensures o.session.forced == s.forced && o.session.defaultHandler == s.defaultHandler
    ensures o.session.filesTotal == s.filesTotal
  {
    var tool := RunBackupTool(h, source, stem);
    if h == TarDump then Outcome(s, env.status(tool), [tool])
    else RunPipedBackup(env, s, h, source, stem, callback)
  }

  /** A strategy that pipes its tool: the GC when needed, the tool, then
      one report per line it prints. */
  function RunPipedBackup(env: Env, s: Session, h: BackupHandler, source: string, stem: string, callback: bool): (o: Outcome)
    requires h != TarDump
    ensures |o.trace| >= 1 && !o.trace[|o.trace| - 1].Unmount?
    ensures var tool := RunBackupTool(h, source, stem);
      if h == DedupeArchive && !s.gcDone
      then o.trace[0] == DedupeGc(BlobDir(stem), GcBackupDir(BlobDir(stem))) && |o.trace| >= 2 && o.trace[1] == tool
      else o.trace[0] == tool
    ensures o.session.gcDone == (s.gcDone || h == DedupeArchive)
    ensures GcCount(o.trace) == (if h == DedupeArchive && !s.gcDone then 1 else 0)
    ensures NoRawBackup(o.trace) && ToolsWrite(o.trace, source, stem)
    ensures GcGuarded(s.gcDone, o.trace)
    ensures OnlyReportsAfter(o.trace, if h == DedupeArchive && !s.gcDone then 1 else 0)
    ensures o.status == ToolStatus(env, RunBackupTool(h, source, stem), true)
    ensures o.session.forced == s.forced && o.session.defaultHandler == s.defaultHandler
    ensures o.session.filesTotal == s.filesTotal
  {
    var tool := RunBackupTool(h, source, stem);
    var gc := if h == DedupeArchive && !s.gcDone then [DedupeGc(BlobDir(stem), GcBackupDir(BlobDir(stem)))] else [];
    var s1 := if h == DedupeArchive then s.(gcDone := true) else s;
    var d := Drain(s1, env.output(tool), callback);
    PipedBackupTrace(s.gcDone, gc, tool, d.reports);
    Outcome(d.session, d.status, gc + [tool] + d.reports)
  }

  /** A backup strategy keeps the GC bookkeeping: the GC runs at most once,
      only when the bit was clear, and before any `dedupe c`. */
  lemma BackupHandlerGcStep(env: Env, s: Session, h: BackupHandler, source: string, stem: string, callback: bool)
    ensures GcStep(s, RunBackupHandler(env, s, h, source, stem, callback))
  {
  }

  /** Runs a restore strategy from `image` into the mounted `target`. */
  function RunRestoreHandler(env: Env, s: Session, h: RestoreHandler, image: string, target: string, callback: bool): (o: Outcome)
    ensures |o.trace| >= 1 && o.trace[0] == RunRestoreTool(h, image, target)
    ensures forall i :: 1 <= i < |o.trace| ==> o.trace[i].Progress?
    ensures h == TarUndump ==> o.status == env.status(RunRestoreTool(h, image, target)) && |o.trace| == 1
    ensures h != TarUndump && env.output(RunRestoreTool(h, image, target)).LaunchFailed? ==> o.status == -1
    ensures h != TarUndump && env.output(RunRestoreTool(h, image, target)).Launched? ==>
      o.status == env.output(RunRestoreTool(h, image, target)).exit
    ensures o.status == ToolStatus(env, RunRestoreTool(h, image, target), h != TarUndump)
    ensures o.session.forced == s.forced && o.session.defaultHandler == s.defaultHandler
    ensures o.session.gcDone == s.gcDone && o.session.filesTotal == s.filesTotal
    ensures s.filesTotal == 0 ==> NoProgress(o.trace)
  {
    var tool := RunRestoreTool(h, image, target);
    if h == TarUndump then Outcome(s, env.status(tool), [tool])
    else
      var d := Drain(s, env.output(tool), callback);
      Outcome(d.session, d.status, [tool] + d.reports)
  }
}
