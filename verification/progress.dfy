/** The progress bridge: the per-line callback, the pre-scan that seeds the
    estimate, and the loop that drains a piped tool's output. */
module Progress {
  import opened Model

  /** What draining a tool leaves: the session, the status, and the progress
      reports made along the way. */
  datatype Drained = Drained(session: Session, status: int, reports: seq<Event>)

  /** One output line (NULL is `None`): counts it, and reports count/total
      when an estimate is known. UI rate limiting is not modelled. */
  function Callback(s: Session, line: Option<string>): (r: (Session, Option<Event>))
    ensures line.None? ==> r.0 == s && r.1.None?
    ensures line.Some? ==> r.0 == s.(filesCount := s.filesCount + 1)
    ensures r.1.Some? <==> line.Some? && s.filesTotal != 0
    ensures r.1.Some? ==> r.1.value == Progress(s.filesCount + 1, s.filesTotal)
  {
    match line
    case None => (s, None)
    case Some(_) =>
      var s' := s.(filesCount := s.filesCount + 1);
      (s', if s.filesTotal != 0 then Some(Progress(s'.filesCount, s'.filesTotal)) else None)
  }

  /** The callback applied to every line a tool printed, in order. */
  function Ticks(s: Session, lines: seq<string>): (r: (Session, seq<Event>))
    ensures r.0 == s.(filesCount := s.filesCount + |lines|)
    ensures |r.1| == (if s.filesTotal != 0 then |lines| else 0)
    ensures forall i :: 0 <= i < |r.1| ==> r.1[i] == Progress(s.filesCount + i + 1, s.filesTotal)
    decreases |lines|
  {
    if |lines| == 0 then (s, [])
    else
      var (s1, report) := Callback(s, Some(lines[0]));
      var (s2, rest) := Ticks(s1, lines[1..]);
      (s2, (if report.Some? then [report.value] else []) + rest)
  }

  /** The pre-scan: the count restarts at zero and the estimate is the
      number of entries found. */
  function ComputeDirectoryStats(s: Session, entries: int): (r: Session)
    ensures r.filesCount == 0 && r.filesTotal == entries
    ensures r.forced == s.forced && r.defaultHandler == s.defaultHandler && r.gcDone == s.gcDone
  {
    s.(filesCount := 0, filesTotal := entries)
  }

  /** Runs a piped tool: -1 when it cannot be started, otherwise its exit
      status after every line went through the callback (when enabled). */
  function Drain(s: Session, run: ToolRun, callback: bool): (r: Drained)
    ensures run.LaunchFailed? ==> r.status == -1 && r.session == s && r.reports == []
    ensures run.Launched? ==> r.status == run.exit
    ensures r.session.filesTotal == s.filesTotal
    ensures r.session.forced == s.forced && r.session.defaultHandler == s.defaultHandler
    ensures r.session.gcDone == s.gcDone
    ensures forall i :: 0 <= i < |r.reports| ==> r.reports[i] == Progress(s.filesCount + i + 1, s.filesTotal)
    ensures s.filesTotal == 0 ==> r.reports == []
    ensures run.Launched? && callback && s.filesTotal != 0 ==> |r.reports| == |run.lines|
    ensures !callback ==> r.session == s && r.reports == []
  {
    match run
    case LaunchFailed => Drained(s, -1, [])
    case Launched(lines, exit) =>
      if callback then
        var (s', reports) := Ticks(s, lines);
        Drained(s', exit, reports)
      else Drained(s, exit, [])
  }

  /** After a pre-scan that found `total` entries, a tool printing `n` lines
      reports exactly 1/total, 2/total, ..., n/total, so the last report is
      n/total and the session is left counting n of total. */
  lemma {:induction false} ProgressAfterScan(s: Session, total: int, lines: seq<string>)
    requires total != 0 && |lines| > 0
    ensures var d := Drain(ComputeDirectoryStats(s, total), Launched(lines, 0), true);
      |d.reports| == |lines| && d.reports[|lines| - 1] == Progress(|lines|, total)
      && d.session.filesCount == |lines| && d.session.filesTotal == total
  {
  }
}
