/** The device pipelines: backup, restore, dump and undump as fixed step
    lists run by one early-exit fold, where the first non-zero status stops
    the run and becomes its result. */
module Pipeline {
  import opened Model
  import opened Formats
  import opened Handlers
  import opened Partitions
  import opened Fold

  /** One step of a pipeline. `BackupExtended` and `RestoreExtended` run the
      strategy sequence without unmounting afterwards. */
  datatype Step =
    | BackupPart(root: string)
    | BackupExtended(path: string)
    | BackupWimax
    | BackupSdExt
    | BackupMd5
    | RestorePart(root: string)
    | RestoreExtended(path: string)
    | RestoreWimax

  /** A step of a fixed plan, run only when its condition held. A step not
      taken succeeds without doing anything. */
  datatype Planned = Planned(taken: bool, step: Step)

  /** The wimax image of a backup directory, named after the device serial. */
  function WimaxImage(env: Env, dir: string): string {
    dir + "/wimax." + env.serialNo + ".img"
  }

  /** The marker whose presence skips the md5 check on restore. */
  const NoMd5Marker: string := "/sdcard/clockworkmod/.no_md5sum"

  /** A step is defined: the extended restore it runs is. A partition
      restore always is, since it reaches the extended restore only for a
      volume with a type. */
  predicate StepDefined(env: Env, dir: string, step: Step) {
    match step
    case RestoreExtended(path) => RestoreDefined(env, dir, path)
    case _ => true
  }

  predicate StepsDefined(env: Env, dir: string, steps: seq<Planned>) {
    forall i :: 0 <= i < |steps| ==> steps[i].taken ==> StepDefined(env, dir, steps[i].step)
  }

  predicate IsRestoreStep(step: Step) {
    step.RestorePart? || step.RestoreExtended? || step.RestoreWimax?
  }

  /** Dumps the wimax partition raw to `wimax.<serial>.img`; a failure is
      reported as 1. */
  function BackupWimaxStep(env: Env, s: Session, dir: string): (o: Outcome)
    ensures o.session == s && GcStep(s, o)
    ensures "/wimax" !in env.volumes ==> o == Outcome(s, 0, [])
    ensures "/wimax" in env.volumes ==>
      o.trace == [RawBackup(env.volumes["/wimax"], WimaxImage(env, dir))]
      && (if env.status(o.trace[0]) == 0 then o.status == 0 else o.status == 1)
  {
    var o :=
      if "/wimax" !in env.volumes then Outcome(s, 0, [])
      else
        var ev := RawBackup(env.volumes["/wimax"], WimaxImage(env, dir));
        Outcome(s, if env.status(ev) != 0 then 1 else 0, [ev]);
    NoBackupToolsGcStep(s, o);
    o
  }

  /** Backs up sd-ext if it mounts; one that will not mount is skipped. */
  function BackupSdExtStep(env: Env, s: Session, dir: string): (o: Outcome)
    ensures |o.trace| >= 1 && o.trace[0] == Mount("/sd-ext")
    ensures env.status(Mount("/sd-ext")) != 0 ==> o == Outcome(s, 0, [Mount("/sd-ext")])
    ensures env.status(Mount("/sd-ext")) == 0 ==>
      var r := BackupPartition(env, s, dir, "/sd-ext");
      o.status == r.status && o.trace == [Mount("/sd-ext")] + r.trace
    ensures o.session.forced == s.forced && o.session.defaultHandler == s.defaultHandler
    ensures GcStep(s, o)
  {
    var mount := Mount("/sd-ext");
    if env.status(mount) != 0 then
      NoBackupToolsGcStep(s, Outcome(s, 0, [mount]));
      Outcome(s, 0, [mount])
    else
      var r := BackupPartition(env, s, dir, "/sd-ext");
      GcStepFramed(s, [mount], r, [], r.status);
      assert [mount] + r.trace + [] == [mount] + r.trace;
      Outcome(r.session, r.status, [mount] + r.trace)
  }

  /** Restores the wimax image if the backup has one: erase (a failure is
      reported as 1), then flash. A backup without the image is skipped. */
  function RestoreWimaxStep(env: Env, s: Session, dir: string): (o: Outcome)
    ensures o.session == s && NoBackupTools(o.trace) && NoProgress(o.trace)
    ensures "/wimax" !in env.volumes || !env.fileExists(WimaxImage(env, dir)) ==> o == Outcome(s, 0, [])
    ensures "/wimax" in env.volumes && env.fileExists(WimaxImage(env, dir)) ==>
      && |o.trace| >= 1 && o.trace[0] == FormatVolume("/wimax")
      && (env.status(FormatVolume("/wimax")) != 0 ==> o.status == 1 && o.trace == [FormatVolume("/wimax")])
      && (env.status(FormatVolume("/wimax")) == 0 ==>
            o.trace == [FormatVolume("/wimax"), RawRestore(env.volumes["/wimax"], WimaxImage(env, dir))]
            && o.status == env.status(o.trace[1]))
  {
    if "/wimax" !in env.volumes || !env.fileExists(WimaxImage(env, dir)) then Outcome(s, 0, [])
    else if env.status(FormatVolume("/wimax")) != 0 then Outcome(s, 1, [FormatVolume("/wimax")])
    else
      var flash := RawRestore(env.volumes["/wimax"], WimaxImage(env, dir));
      Outcome(s, env.status(flash), [FormatVolume("/wimax"), flash])
  }

  /** Runs one step. */
  function ExecStep(env: Env, s: Session, dir: string, step: Step): (o: Outcome)
    requires StepDefined(env, dir, step)
    ensures GcStep(s, o)
    ensures o.session.forced == s.forced && o.session.defaultHandler == s.defaultHandler
    ensures IsRestoreStep(step) ==>
      o.session.gcDone == s.gcDone && o.session.filesTotal == s.filesTotal && NoBackupTools(o.trace)
      && (s.filesTotal == 0 ==> NoProgress(o.trace))
    ensures step == BackupMd5 ==> o.trace == [Md5Generate(dir)] && o.status == env.status(Md5Generate(dir))
  {
    if IsRestoreStep(step) then ExecRestoreStep(env, s, dir, step) else ExecBackupStep(env, s, dir, step)
  }

  /** Runs one backup step. */
  function ExecBackupStep(env: Env, s: Session, dir: string, step: Step): (o: Outcome)
    requires !IsRestoreStep(step)
    ensures GcStep(s, o)
    ensures o.session.forced == s.forced && o.session.defaultHandler == s.defaultHandler
    ensures step == BackupMd5 ==> o.trace == [Md5Generate(dir)] && o.status == env.status(Md5Generate(dir))
  {
    match step
    case BackupPart(root) => BackupPartition(env, s, dir, root)
    case BackupExtended(path) => BackupPartitionExtended(env, s, dir, path, false)
    case BackupWimax => BackupWimaxStep(env, s, dir)
    case BackupSdExt => BackupSdExtStep(env, s, dir)
    case BackupMd5 =>
      var ev := Md5Generate(dir);
      NoBackupToolsGcStep(s, Outcome(s, env.status(ev), [ev]));
      Outcome(s, env.status(ev), [ev])
  }

  /** Runs one restore step: restores leave the GC bit and the estimate
      alone, run no backup tool, and report no progress against a zero
      estimate. */
  function ExecRestoreStep(env: Env, s: Session, dir: string, step: Step): (o: Outcome)
    requires IsRestoreStep(step) && StepDefined(env, dir, step)
    ensures GcStep(s, o)
    ensures o.session.forced == s.forced && o.session.defaultHandler == s.defaultHandler
    ensures o.session.gcDone == s.gcDone && o.session.filesTotal == s.filesTotal && NoBackupTools(o.trace)
    ensures s.filesTotal == 0 ==> NoProgress(o.trace)
  {
    var r :=
      match step
      case RestorePart(root) => RestorePartition(env, s, dir, root)
      case RestoreExtended(path) => RestorePartitionExtended(env, s, dir, path, false)
      case RestoreWimax => RestoreWimaxStep(env, s, dir);
    NoBackupToolsGcStep(s, r);
    r
  }

  /** Runs a planned step if it was taken. */
  function Exec(env: Env, s: Session, dir: string, p: Planned): (o: Outcome)
    requires p.taken ==> StepDefined(env, dir, p.step)
    ensures !p.taken ==> o == Outcome(s, 0, [])
    ensures GcStep(s, o)
    ensures o.session.forced == s.forced && o.session.defaultHandler == s.defaultHandler
    ensures IsRestoreStep(p.step) ==>
      o.session.gcDone == s.gcDone && o.session.filesTotal == s.filesTotal && NoBackupTools(o.trace)
      && (s.filesTotal == 0 ==> NoProgress(o.trace))
  {
    if p.taken then ExecStep(env, s, dir, p.step)
    else
      NoBackupToolsGcStep(s, Outcome(s, 0, []));
      Outcome(s, 0, [])
  }

  /** The step semantics the fold runs for backup directory `dir`. */
  function Runner(env: Env, dir: string): (Session, Planned) --> Outcome {
    (t: Session, p: Planned) requires p.taken ==> StepDefined(env, dir, p.step) => Exec(env, t, dir, p)
  }

  /** The runner can run every step of a defined plan, and runs it as `Exec`. */
  lemma RunnerRuns(env: Env, dir: string, steps: seq<Planned>)
    requires StepsDefined(env, dir, steps)
    ensures Runnable(Runner(env, dir), steps)
    ensures forall t: Session, i :: 0 <= i < |steps| ==> Runner(env, dir)(t, steps[i]) == Exec(env, t, dir, steps[i])
  {
  }

  /** A plan run by the early-exit fold. */
  function RunPlan(env: Env, s: Session, dir: string, plan: seq<Planned>): (o: Outcome)
    requires StepsDefined(env, dir, plan)
    ensures GcStep(s, o)
    ensures |plan| == 0 ==> o == Outcome(s, 0, [])
  {
    RunnerRuns(env, dir, plan);
    RunStepsGc(Runner(env, dir), s, plan);
    RunSteps(Runner(env, dir), s, plan)
  }

  /** The same plan with every step run, failures or not: the reference the
      fold is compared with. */
  function PlanExecutions(env: Env, s: Session, dir: string, plan: seq<Planned>): (os: seq<Outcome>)
    requires StepsDefined(env, dir, plan)
    ensures |os| == |plan|
    ensures |plan| > 0 ==> os[0] == Exec(env, s, dir, plan[0])
  {
    RunnerRuns(env, dir, plan);
    Executions(Runner(env, dir), s, plan)
  }

  /** A plan's run stops at its first failing step: its status is that
      step's, or 0 when none fails, and its actions are those of the steps
      up to and including that one, so no later step runs. */
  lemma PlanStopsAtFirstFailure(env: Env, s: Session, dir: string, plan: seq<Planned>)
    requires StepsDefined(env, dir, plan)
    ensures var os := PlanExecutions(env, s, dir, plan);
      var o := RunPlan(env, s, dir, plan);
      && o.status == (if FirstFailure(os) < |os| then os[FirstFailure(os)].status else 0)
      && o.trace == Traces(os[..Reached(os)])
      && (o.status == 0 <==> forall j :: 0 <= j < |os| ==> os[j].status == 0)
  {
    RunnerRuns(env, dir, plan);
    RunStepsStatus(Runner(env, dir), s, plan);
    RunStepsTrace(Runner(env, dir), s, plan);
    RunStepsSucceedsIffAllSucceed(Runner(env, dir), s, plan);
  }

  /** One step of a plan's run: the first step, then, if it succeeded, the
      rest from the session it left. */
  lemma RunPlanStep(env: Env, s: Session, dir: string, plan: seq<Planned>)
    requires StepsDefined(env, dir, plan) && |plan| > 0
    ensures var first := Exec(env, s, dir, plan[0]);
      RunPlan(env, s, dir, plan) ==
        if first.status != 0 then first
        else
          var rest := RunPlan(env, first.session, dir, plan[1..]);
          Outcome(rest.session, rest.status, first.trace + rest.trace)
  {
    RunnerRuns(env, dir, plan);
    RunnerRuns(env, dir, plan[1..]);
  }

  /** Restore steps from a zero estimate never report determinate progress,
      run no backup tool and leave the GC bit and the estimate alone. */
  lemma RestoreStepsQuiet(env: Env, s: Session, dir: string, plan: seq<Planned>)
    requires StepsDefined(env, dir, plan)
    requires forall i :: 0 <= i < |plan| ==> IsRestoreStep(plan[i].step)
    requires s.filesTotal == 0
    ensures var o := RunPlan(env, s, dir, plan);
      NoProgress(o.trace) && NoBackupTools(o.trace) && o.session.filesTotal == 0 && o.session.gcDone == s.gcDone
  {
    RunnerRuns(env, dir, plan);
    RunStepsQuiet(Runner(env, dir), s, plan);
  }

  // ----------------------------------------------------------------- plans

  /** The wimax partition is present: it has a volume whose device exists. */
  predicate HasWimax(env: Env) {
    "/wimax" in env.volumes && env.fileExists(env.volumes["/wimax"].blkDevice)
  }

  /** The backup plan, in order: boot, recovery, [wimax], system, [preload],
      data, [datadata], [.android_secure], cache, [sd-ext], md5; the
      bracketed parts are taken only when present. */
  function BackupPlan(env: Env): (plan: seq<Planned>)
    ensures |plan| == 11 && plan[10] == Planned(true, BackupMd5)
    ensures forall i :: 0 <= i < |plan| ==> !IsRestoreStep(plan[i].step)
  {
    [ Planned(true, BackupPart("/boot")),
      Planned(true, BackupPart("/recovery")),
      Planned(HasWimax(env), BackupWimax),
      Planned(true, BackupPart("/system")),
      Planned("/preload" in env.volumes, BackupPart("/preload")),
      Planned(true, BackupPart("/data")),
      Planned(env.hasDatadata, BackupPart("/datadata")),
      Planned(env.fileExists(env.androidSecurePath), BackupExtended(env.androidSecurePath)),
      Planned(true, BackupExtended("/cache")),
      Planned("/sd-ext" in env.volumes && env.fileExists(env.volumes["/sd-ext"].blkDevice), BackupSdExt),
      Planned(true, BackupMd5) ]
  }

  /** The restore categories the caller asked for. */
  datatype RestoreFlags = RestoreFlags(boot: bool, system: bool, data: bool, cache: bool, sdext: bool, wimax: bool)

  predicate NoFlags(f: RestoreFlags) {
    !f.boot && !f.system && !f.data && !f.cache && !f.sdext && !f.wimax
  }

  /** The restore plan, in order: boot, wimax, system, preload, data,
      datadata, .android_secure, cache, sd-ext; each taken only when its
      flag is set (and, for boot, wimax, preload and datadata, the part is
      present). */
  function RestorePlan(env: Env, f: RestoreFlags): (plan: seq<Planned>)
    ensures |plan| == 9
    ensures forall i :: 0 <= i < |plan| ==> IsRestoreStep(plan[i].step)
    ensures NoFlags(f) ==> forall i :: 0 <= i < |plan| ==> !plan[i].taken
  {
    [ Planned(f.boot && "/boot" in env.volumes, RestorePart("/boot")),
      Planned(f.wimax && HasWimax(env), RestoreWimax),
      Planned(f.system, RestorePart("/system")),
      Planned("/preload" in env.volumes && f.system, RestorePart("/preload")),
      Planned(f.data, RestorePart("/data")),
      Planned(env.hasDatadata && f.data, RestorePart("/datadata")),
      Planned(f.data, RestoreExtended(env.androidSecurePath)),
      Planned(f.cache, RestoreExtended("/cache")),
      Planned(f.sdext, RestorePart("/sd-ext")) ]
  }

  /** A plan in which no step is taken does nothing and succeeds. */
  lemma NothingTakenDoesNothing(env: Env, s: Session, dir: string, plan: seq<Planned>)
    requires forall i :: 0 <= i < |plan| ==> !plan[i].taken
    ensures RunPlan(env, s, dir, plan) == Outcome(s, 0, [])
  {
    RunnerRuns(env, dir, plan);
    NothingRunDoesNothing(Runner(env, dir), s, plan);
  }

  // ------------------------------------------------------------- pipelines

  /** A run's starting session for backup and dump: the GC bit cleared and
      the default handler re-read. */
  function FreshRun(env: Env, s: Session): (r: Session)
    ensures !r.gcDone && r.forced == s.forced
    ensures FormatOfHandler(r.defaultHandler) == ConfiguredFormat(s.forced, env.configFile)
  {
    RefreshDefaultBackupHandler(s.(gcDone := false), env.configFile)
  }

  /** Backs up the device into `dir`: mount it (failure: 1), find its
      volume (none: 1), stat it (failure: 1), then run the backup plan. */
  function NandroidBackup(env: Env, s: Session, dir: string): (o: Outcome)
    ensures |o.trace| >= 1 && o.trace[0] == Mount(dir)
    ensures env.status(Mount(dir)) != 0 ==> o.status == 1 && o.trace == [Mount(dir)]
    ensures (if env.onDataMedia(dir) then "/data" else dir) !in env.volumes ==> o.status == 1 && o.trace == [Mount(dir)]
    ensures !env.backupStatOk ==> o.status == 1 && o.trace == [Mount(dir)]
    ensures env.status(Mount(dir)) == 0 && (if env.onDataMedia(dir) then "/data" else dir) in env.volumes && env.backupStatOk ==>
      var r := RunPlan(env, FreshRun(env, s), dir, BackupPlan(env));
      o.status == r.status && o.trace == [Mount(dir)] + r.trace
    ensures GcStep(FreshRun(env, s), o)
  {
    var s0 := FreshRun(env, s);
    var head := Outcome(s0, 1, [Mount(dir)]);
    NoBackupToolsGcStep(s0, head);
    if env.status(Mount(dir)) != 0 then head
    else if (if env.onDataMedia(dir) then "/data" else dir) !in env.volumes then head
    else if !env.backupStatOk then head
    else
      var r := RunPlan(env, s0, dir, BackupPlan(env));
      GcStepFramed(s0, [Mount(dir)], r, [], r.status);
      assert [Mount(dir)] + r.trace + [] == [Mount(dir)] + r.trace;
      Outcome(r.session, r.status, [Mount(dir)] + r.trace)
  }

  /** Within one backup run the content-store GC runs at most once, and
      every `dedupe c` the run issues comes after it, whatever happened in
      earlier runs. */
  lemma BackupRunGcAtMostOnceAndFirst(env: Env, s: Session, dir: string)
    ensures GcCount(NandroidBackup(env, s, dir).trace) <= 1
    ensures GcGuarded(false, NandroidBackup(env, s, dir).trace)
  {
  }

  /** A successful run of the backup plan ends with generating the md5
      sums. */
  lemma BackupPlanEndsWithMd5(env: Env, s: Session, dir: string)
    requires RunPlan(env, s, dir, BackupPlan(env)).status == 0
    ensures var t := RunPlan(env, s, dir, BackupPlan(env)).trace; |t| > 0 && t[|t| - 1] == Md5Generate(dir)
  {
    var plan := BackupPlan(env);
    RunnerRuns(env, dir, plan);
    RunStepsEndsWith(Runner(env, dir), s, plan, Planned(true, BackupMd5), Md5Generate(dir));
  }

  /** The backup plan, once the directory is mounted, found and stat'ed,
      stops at its first failing step and returns that step's status;
      it succeeds exactly when every planned step does, and then its last
      action is generating the md5 sums, after every partition. */
  lemma {:induction false} BackupStopsAtFirstFailure(env: Env, s: Session, dir: string)
    requires env.status(Mount(dir)) == 0 && (if env.onDataMedia(dir) then "/data" else dir) in env.volumes
    requires env.backupStatOk
    ensures var os := PlanExecutions(env, FreshRun(env, s), dir, BackupPlan(env));
      var o := NandroidBackup(env, s, dir);
      && o.status == (if FirstFailure(os) < |os| then os[FirstFailure(os)].status else 0)
      && o.trace == [Mount(dir)] + Traces(os[..Reached(os)])
      && (o.status == 0 <==> forall j :: 0 <= j < |os| ==> os[j].status == 0)
    ensures var t := NandroidBackup(env, s, dir).trace;
      NandroidBackup(env, s, dir).status == 0 ==> t[|t| - 1] == Md5Generate(dir)
  {
    var s0 := FreshRun(env, s);
    var plan := BackupPlan(env);
    PlanStopsAtFirstFailure(env, s0, dir, plan);
    var r := RunPlan(env, s0, dir, plan);
    if r.status == 0 {
      BackupPlanEndsWithMd5(env, s0, dir);
    }
  }

  /** The actions in front of the restore plan: mounting the backup, then
      checking its md5 sums unless the marker says to skip the check. */
  function Md5Gate(env: Env, dir: string): (g: seq<Event>)
    ensures env.fileExists(NoMd5Marker) ==> g == [Mount(dir)]
    ensures !env.fileExists(NoMd5Marker) ==> g == [Mount(dir), Md5Check(dir)]
  {
    if env.fileExists(NoMd5Marker) then [Mount(dir)] else [Mount(dir), Md5Check(dir)]
  }

  /** The gate lets the plan run: the backup mounts and its sums check out
      or are not checked. */
  predicate GatePasses(env: Env, dir: string) {
    env.status(Mount(dir)) == 0 && (env.fileExists(NoMd5Marker) || env.status(Md5Check(dir)) == 0)
  }

  /** Restores the device from `dir` (status 0 when no step fails): clear
      the estimate, mount `dir` (failure: 1), check md5 sums unless the
      marker says not to (mismatch: 1, before any partition is touched),
      then run the restore plan. */
  function NandroidRestore(env: Env, s: Session, dir: string, f: RestoreFlags): (o: Outcome)
    requires StepsDefined(env, dir, RestorePlan(env, f))
    ensures |o.trace| >= 1 && o.trace[0] == Mount(dir)
    ensures env.status(Mount(dir)) != 0 ==> o.status == 1 && o.trace == [Mount(dir)]
    ensures env.status(Mount(dir)) == 0 && !env.fileExists(NoMd5Marker) && env.status(Md5Check(dir)) != 0 ==>
      o.status == 1 && o.trace == [Mount(dir), Md5Check(dir)]
    ensures GatePasses(env, dir) ==>
      var r := RunPlan(env, s.(filesTotal := 0), dir, RestorePlan(env, f));
      o.status == r.status && o.trace == Md5Gate(env, dir) + r.trace
    ensures NoProgress(o.trace) && NoBackupTools(o.trace)
    ensures o.session.gcDone == s.gcDone && o.session.filesTotal == 0
  {
    var s0 := s.(filesTotal := 0);
    var plan := RestorePlan(env, f);
    if env.status(Mount(dir)) != 0 then Outcome(s0, 1, [Mount(dir)])
    else
      var gate := Md5Gate(env, dir);
      if !env.fileExists(NoMd5Marker) && env.status(Md5Check(dir)) != 0 then Outcome(s0, 1, gate)
      else
        var r := RunPlan(env, s0, dir, plan);
        RestoreStepsQuiet(env, s0, dir, plan);
        NoProgressAppend(gate, r.trace);
        NoBackupToolsAppend(gate, r.trace);
        Outcome(r.session, r.status, gate + r.trace)
  }

  /** Past the gate, the restore plan stops at its first failing step and
      returns that step's status; it succeeds exactly when every step the
      flags select does. */
  lemma {:induction false} RestoreStopsAtFirstFailure(env: Env, s: Session, dir: string, f: RestoreFlags)
    requires StepsDefined(env, dir, RestorePlan(env, f)) && GatePasses(env, dir)
    ensures var os := PlanExecutions(env, s.(filesTotal := 0), dir, RestorePlan(env, f));
      var o := NandroidRestore(env, s, dir, f);
      && o.status == (if FirstFailure(os) < |os| then os[FirstFailure(os)].status else 0)
      && o.trace == Md5Gate(env, dir) + Traces(os[..Reached(os)])
      && (o.status == 0 <==> forall j :: 0 <= j < |os| ==> os[j].status == 0)
  {
    PlanStopsAtFirstFailure(env, s.(filesTotal := 0), dir, RestorePlan(env, f));
  }

  /** With no category selected, a restore past the gate touches no
      partition and succeeds. */
  lemma {:induction false} RestoreWithoutFlagsDoesNothing(env: Env, s: Session, dir: string, f: RestoreFlags)
    requires NoFlags(f) && GatePasses(env, dir)
    ensures StepsDefined(env, dir, RestorePlan(env, f))
    ensures NandroidRestore(env, s, dir, f).status == 0 && NandroidRestore(env, s, dir, f).trace == Md5Gate(env, dir)
  {
    NothingTakenDoesNothing(env, s.(filesTotal := 0), dir, RestorePlan(env, f));
    assert Md5Gate(env, dir) + [] == Md5Gate(env, dir);
  }

  /** Dumps one partition with stdout as the backup location: boot and
      recovery through the image dumper, data and system through the
      partition backup with the tar dumper as default, anything else 1. */
  function NandroidDump(env: Env, s: Session, partition: string): (o: Outcome)
    ensures partition !in {"boot", "recovery", "data", "system"} ==> o.status == 1 && o.trace == []
    ensures partition in {"boot", "recovery"} ==>
      o.trace == [DumpImage(partition)] && o.status == env.status(DumpImage(partition))
    ensures partition in {"data", "system"} ==>
      o == BackupPartition(env, FreshRun(env, s).(defaultHandler := TarDump), Stream, "/" + partition)
    ensures o.session.defaultHandler == TarDump
    ensures GcCount(o.trace) == 0
    ensures forall i :: 0 <= i < |o.trace| && o.trace[i].RunBackupTool? ==> o.trace[i].stem == StdoutPath
    ensures forall i :: 0 <= i < |o.trace| && o.trace[i].RawBackup? ==> o.trace[i].dest == StdoutPath
  {
    var s0 := FreshRun(env, s).(defaultHandler := TarDump);
    if partition == "boot" || partition == "recovery" then
      Outcome(s0, env.status(DumpImage(partition)), [DumpImage(partition)])
    else if partition == "data" || partition == "system" then
      BackupPartition(env, s0, Stream, "/" + partition)
    else Outcome(s0, 1, [])
  }

  /** Dumping a mounted yaffs2 data or system partition does not stream it:
      the image maker is handed the stdout path as its stem, and it writes
      the file that stem names once its `.img` suffix is appended. */
  lemma DumpOfYaffs2WritesImageFile(env: Env, s: Session, partition: string)
    requires partition == "data" || partition == "system"
    requires HasTypedVolume(env, "/" + partition) && !IsRawVolume(env, "/" + partition)
    requires env.status(Mount("/" + partition)) == 0 && MountedFs(env, "/" + partition) == Some("yaffs2")
    requires !IsDataOnMedia(env, "/" + partition) && !IsForced(s.forced)
    ensures var o := NandroidDump(env, s, partition);
      |o.trace| > 2 && o.trace[2] == RunBackupTool(Yaffs2Image, "/" + partition, StdoutPath)
      && ArtifactSuffix(o.trace[2].backupHandler) == ".img"
  {
    StreamedYaffs2Image(env, FreshRun(env, s).(defaultHandler := TarDump), "/" + partition);
  }

  /** Reads one partition from stdin: boot through the image flasher,
      recovery, system and data through the partition restore, anything
      else 0. */
  function NandroidUndump(env: Env, s: Session, partition: string): (o: Outcome)
    ensures partition == "boot" ==> o.trace == [FlashImage("boot")] && o.status == env.status(FlashImage("boot"))
    ensures partition in {"recovery", "system", "data"} ==>
      o == RestorePartition(env, s.(filesTotal := 0), Stream, "/" + partition)
    ensures partition !in {"boot", "recovery", "system", "data"} ==> o.status == 0 && o.trace == []
    ensures NoProgress(o.trace) && NoBackupTools(o.trace)
    ensures forall i :: 0 <= i < |o.trace| && o.trace[i].RunRestoreTool? ==>
      o.trace[i] == RunRestoreTool(TarUndump, StdinPath, "/" + partition)
    ensures forall i :: 0 <= i < |o.trace| && o.trace[i].RawRestore? ==> o.trace[i].source == Stream
  {
    var s0 := s.(filesTotal := 0);
    if partition == "boot" then Outcome(s0, env.status(FlashImage("boot")), [FlashImage("boot")])
    else if partition in {"recovery", "system", "data"} then RestorePartition(env, s0, Stream, "/" + partition)
    else Outcome(s0, 0, [])
  }
}
