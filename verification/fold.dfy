/** The early-exit fold both pipelines are built on: run steps in order from
    the session the previous step left, stop at the first non-zero status
    and return it. The step semantics is a parameter, so the facts here
    hold for any step list. */
module Fold {
  import opened Model

  /** `exec` can run every step of `steps`, whatever the session. */
  ghost predicate Runnable<P>(exec: (Session, P) --> Outcome, steps: seq<P>) {
    forall t: Session, i :: 0 <= i < |steps| ==> exec.requires(t, steps[i])
  }

  /** The fold as the pipelines run it: stop at the first failing step and
      return its status; 0 when every step succeeded. */
  function RunSteps<P>(exec: (Session, P) --> Outcome, s: Session, steps: seq<P>): (o: Outcome)
    requires Runnable(exec, steps)
    ensures |steps| == 0 ==> o == Outcome(s, 0, [])
    ensures |steps| > 0 && exec(s, steps[0]).status != 0 ==> o == exec(s, steps[0])
    decreases |steps|
  {
    if |steps| == 0 then Outcome(s, 0, [])
    else
      var first := exec(s, steps[0]);
      if first.status != 0 then first
      else
        var rest := RunSteps(exec, first.session, steps[1..]);
        Outcome(rest.session, rest.status, first.trace + rest.trace)
  }

  /** The reference: every step run one after another from the session the
      previous one left, failures or not. */
  function Executions<P>(exec: (Session, P) --> Outcome, s: Session, steps: seq<P>): (os: seq<Outcome>)
    requires Runnable(exec, steps)
    ensures |os| == |steps|
    ensures |steps| > 0 ==> os[0] == exec(s, steps[0])
    decreases |steps|
  {
    if |steps| == 0 then []
    else
      var first := exec(s, steps[0]);
      [first] + Executions(exec, first.session, steps[1..])
  }

  /** Index of the first failing outcome, or `|os|` when none fails. */
  function FirstFailure(os: seq<Outcome>): (k: nat)
    ensures k <= |os|
    ensures forall j :: 0 <= j < k ==> os[j].status == 0
    ensures k < |os| ==> os[k].status != 0
    decreases |os|
  {
    if |os| == 0 then 0
    else if os[0].status != 0 then 0
    else 1 + FirstFailure(os[1..])
  }

  /** The actions of a list of outcomes, in order. */
  function Traces(os: seq<Outcome>): seq<Event>
    decreases |os|
  {
    if |os| == 0 then [] else os[0].trace + Traces(os[1..])
  }

  /** How many outcomes of the reference the fold gets to see: up to and
      including the first failure. */
  function Reached(os: seq<Outcome>): (n: nat)
    ensures n <= |os|
  {
    var k := FirstFailure(os);
    if k < |os| then k + 1 else k
  }

  /** The cut of `[first] + rest` when `first` fails is `first` alone. */
  lemma FirstStepFails(first: Outcome, rest: seq<Outcome>)
    requires first.status != 0
    ensures FirstFailure([first] + rest) == 0
    ensures Traces(([first] + rest)[..Reached([first] + rest)]) == first.trace
  {
    assert ([first] + rest)[..1] == [first];
    assert [first][1..] == [];
  }

  /** When `first` succeeds, the cut of `[first] + rest` is `first` followed
      by the cut of `rest`. */
  lemma {:induction false} FirstStepSucceeds(first: Outcome, rest: seq<Outcome>)
    requires first.status == 0
    ensures FirstFailure([first] + rest) == 1 + FirstFailure(rest)
    ensures Reached([first] + rest) == 1 + Reached(rest)
    ensures Traces(([first] + rest)[..Reached([first] + rest)]) == first.trace + Traces(rest[..Reached(rest)])
  {
    var os := [first] + rest;
    assert os[1..] == rest;
    var n := Reached(rest);
    assert os[..n + 1][1..] == rest[..n];
  }

  /** The fold's status is that of the first failing step of the reference,
      and 0 when no step fails. */
  lemma {:induction false} RunStepsStatus<P>(exec: (Session, P) --> Outcome, s: Session, steps: seq<P>)
    requires Runnable(exec, steps)
    ensures var os := Executions(exec, s, steps);
      RunSteps(exec, s, steps).status == (if FirstFailure(os) < |os| then os[FirstFailure(os)].status else 0)
    decreases |steps|
  {
    if |steps| > 0 {
      var first := exec(s, steps[0]);
      var rest := Executions(exec, first.session, steps[1..]);
      assert Executions(exec, s, steps) == [first] + rest;
      if first.status == 0 {
        RunStepsStatus(exec, first.session, steps[1..]);
        FirstStepSucceeds(first, rest);
      }
    }
  }

  /** The fold's actions are exactly those of the reference's steps up to
      and including the first failing one: no later step ever runs. */
  lemma {:induction false} RunStepsTrace<P>(exec: (Session, P) --> Outcome, s: Session, steps: seq<P>)
    requires Runnable(exec, steps)
    ensures var os := Executions(exec, s, steps);
      RunSteps(exec, s, steps).trace == Traces(os[..Reached(os)])
    decreases |steps|
  {
    if |steps| > 0 {
      var first := exec(s, steps[0]);
      var rest := Executions(exec, first.session, steps[1..]);
      assert Executions(exec, s, steps) == [first] + rest;
      if first.status != 0 {
        FirstStepFails(first, rest);
      } else {
        RunStepsTrace(exec, first.session, steps[1..]);
        FirstStepSucceeds(first, rest);
      }
    }
  }

  /** The fold succeeds exactly when every step of the reference succeeds. */
  lemma RunStepsSucceedsIffAllSucceed<P>(exec: (Session, P) --> Outcome, s: Session, steps: seq<P>)
    requires Runnable(exec, steps)
    ensures RunSteps(exec, s, steps).status == 0 <==>
      forall j :: 0 <= j < |steps| ==> Executions(exec, s, steps)[j].status == 0
  {
    RunStepsStatus(exec, s, steps);
  }

  /** Steps that each keep the GC bookkeeping keep it when folded: over the
      whole run at most one GC, and every `dedupe c` after it. */
  lemma {:induction false} RunStepsGc<P>(exec: (Session, P) --> Outcome, s: Session, steps: seq<P>)
    requires Runnable(exec, steps)
    requires forall t: Session, i :: 0 <= i < |steps| ==> GcStep(t, exec(t, steps[i]))
    ensures GcStep(s, RunSteps(exec, s, steps))
    decreases |steps|
  {
    if |steps| == 0 {
      NoBackupToolsGcStep(s, Outcome(s, 0, []));
    } else {
      var first := exec(s, steps[0]);
      if first.status == 0 {
        RunStepsGc(exec, first.session, steps[1..]);
        var rest := RunSteps(exec, first.session, steps[1..]);
        GcStepChain(s, first, rest, rest.status);
      }
    }
  }

  /** Steps that, from a zero estimate, report no progress, run no backup
      tool and keep the bit and the estimate, do so when folded. */
  lemma {:induction false} RunStepsQuiet<P>(exec: (Session, P) --> Outcome, s: Session, steps: seq<P>)
    requires Runnable(exec, steps)
    requires forall t: Session, i :: 0 <= i < |steps| && t.filesTotal == 0 ==>
      var o := exec(t, steps[i]);
      NoProgress(o.trace) && NoBackupTools(o.trace) && o.session.filesTotal == 0 && o.session.gcDone == t.gcDone
    requires s.filesTotal == 0
    ensures var o := RunSteps(exec, s, steps);
      NoProgress(o.trace) && NoBackupTools(o.trace) && o.session.filesTotal == 0 && o.session.gcDone == s.gcDone
    decreases |steps|
  {
    if |steps| > 0 {
      var first := exec(s, steps[0]);
      if first.status == 0 {
        RunStepsQuiet(exec, first.session, steps[1..]);
        var rest := RunSteps(exec, first.session, steps[1..]);
        NoProgressAppend(first.trace, rest.trace);
        NoBackupToolsAppend(first.trace, rest.trace);
      }
    }
  }

  /** Steps that all do nothing fold to doing nothing. */
  lemma {:induction false} NothingRunDoesNothing<P>(exec: (Session, P) --> Outcome, s: Session, steps: seq<P>)
    requires Runnable(exec, steps)
    requires forall t: Session, i :: 0 <= i < |steps| ==> exec(t, steps[i]) == Outcome(t, 0, [])
    ensures RunSteps(exec, s, steps) == Outcome(s, 0, [])
    decreases |steps|
  {
    if |steps| > 0 {
      NothingRunDoesNothing(exec, s, steps[1..]);
    }
  }

  /** A successful fold whose last step always performs exactly `e` ends
      with `e`. */
  lemma {:induction false} RunStepsEndsWith<P>(exec: (Session, P) --> Outcome, s: Session, steps: seq<P>, last: P, e: Event)
    requires Runnable(exec, steps) && |steps| > 0 && steps[|steps| - 1] == last
    requires forall t: Session :: exec.requires(t, last) ==> exec(t, last).trace == [e]
    requires RunSteps(exec, s, steps).status == 0
    ensures var t := RunSteps(exec, s, steps).trace; |t| > 0 && t[|t| - 1] == e
    decreases |steps|
  {
    var first := exec(s, steps[0]);
    if |steps| > 1 {
      RunStepsEndsWith(exec, first.session, steps[1..], last, e);
    }
  }
}
