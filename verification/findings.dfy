/** The restore pipeline's return value as the code computes it. Its result
    variable is declared without a value and is only assigned by the steps
    that run, so a restore in which no step assigns it returns whatever the
    variable happened to hold. `None` stands for that indeterminate value. */
module Findings {
  import opened Model
  import opened Fold
  import opened Pipeline

  /** The step assigns the result variable: it is taken, and for wimax the
      backup holds the image (without it only a warning is printed). */
  predicate AssignsRet(env: Env, dir: string, p: Planned) {
    p.taken && (p.step != RestoreWimax || env.fileExists(WimaxImage(env, dir)))
  }

  /** The result variable after running `plan` from value `ret`: each
      assigning step overwrites it with its status, and the first failing
      step ends the run with its status. */
  function RetAsWritten(env: Env, s: Session, dir: string, plan: seq<Planned>, ret: Option<int>): (r: Option<int>)
    requires StepsDefined(env, dir, plan)
    ensures ret.Some? ==> r.Some?
    decreases |plan|
  {
    if |plan| == 0 then ret
    else
      var first := Exec(env, s, dir, plan[0]);
      if first.status != 0 then Some(first.status)
      else RetAsWritten(env, first.session, dir, plan[1..], if AssignsRet(env, dir, plan[0]) then Some(first.status) else ret)
  }

  /** The restore's return value as written: 1 for a backup that will not
      mount or whose sums do not match, otherwise the result variable after
      the plan, never assigned beforehand. */
  function NandroidRestoreAsWritten(env: Env, s: Session, dir: string, f: RestoreFlags): (r: Option<int>)
    requires StepsDefined(env, dir, RestorePlan(env, f))
    ensures !GatePasses(env, dir) ==> r == Some(1)
  {
    if !GatePasses(env, dir) then Some(1)
    else RetAsWritten(env, s.(filesTotal := 0), dir, RestorePlan(env, f), None)
  }

  /** A plan none of whose steps is taken leaves the result variable as it
      was. */
  lemma {:induction false} NothingTakenKeepsRet(env: Env, s: Session, dir: string, plan: seq<Planned>, ret: Option<int>)
    requires forall i :: 0 <= i < |plan| ==> !plan[i].taken
    ensures StepsDefined(env, dir, plan)
    ensures RetAsWritten(env, s, dir, plan, ret) == ret
    decreases |plan|
  {
    if |plan| > 0 {
      NothingTakenKeepsRet(env, s, dir, plan[1..], ret);
    }
  }

  /** The discrepancy: a restore with every category flag clear, past the
      gate, returns the uninitialised result variable. */
  lemma UnassignedReturnWithoutFlags(env: Env, s: Session, dir: string, f: RestoreFlags)
    requires NoFlags(f) && GatePasses(env, dir)
    ensures StepsDefined(env, dir, RestorePlan(env, f))
    ensures NandroidRestoreAsWritten(env, s, dir, f) == None
  {
    NothingTakenKeepsRet(env, s.(filesTotal := 0), dir, RestorePlan(env, f), None);
  }

  /** Whenever the result variable was assigned, the code's return value is
      the one the corrected restore returns; a failing step's status is
      returned either way. */
  lemma {:induction false} RetAgreesWithPlan(env: Env, s: Session, dir: string, plan: seq<Planned>, ret: Option<int>)
    requires StepsDefined(env, dir, plan)
    requires ret == None || ret == Some(0)
    ensures var r := RetAsWritten(env, s, dir, plan, ret);
      var o := RunPlan(env, s, dir, plan);
      && (r.Some? ==> r.value == o.status)
      && (o.status != 0 ==> r == Some(o.status))
    decreases |plan|
  {
    if |plan| > 0 {
      RunPlanStep(env, s, dir, plan);
      var first := Exec(env, s, dir, plan[0]);
      if first.status == 0 {
        RetAgreesWithPlan(env, first.session, dir, plan[1..], if AssignsRet(env, dir, plan[0]) then Some(0) else ret);
      }
    }
  }

  /** Once a step that assigns the result variable runs, the return value is
      determinate. */
  lemma {:induction false} AssigningStepDefinesRet(env: Env, s: Session, dir: string, plan: seq<Planned>, ret: Option<int>, k: nat)
    requires StepsDefined(env, dir, plan)
    requires k < |plan| && AssignsRet(env, dir, plan[k])
    ensures RetAsWritten(env, s, dir, plan, ret).Some?
    decreases |plan|
  {
    var first := Exec(env, s, dir, plan[0]);
    if k > 0 && first.status == 0 {
      AssigningStepDefinesRet(env, first.session, dir, plan[1..],
        if AssignsRet(env, dir, plan[0]) then Some(first.status) else ret, k - 1);
    }
  }

  /** The code as written and the corrected restore agree on every run
      whose result variable was assigned, and a restore of the system
      category always assigns it. */
  lemma AsWrittenAgreesWhenAssigned(env: Env, s: Session, dir: string, f: RestoreFlags)
    requires StepsDefined(env, dir, RestorePlan(env, f))
    ensures NandroidRestoreAsWritten(env, s, dir, f).Some? ==>
      NandroidRestoreAsWritten(env, s, dir, f).value == NandroidRestore(env, s, dir, f).status
    ensures NandroidRestore(env, s, dir, f).status != 0 ==>
      NandroidRestoreAsWritten(env, s, dir, f) == Some(NandroidRestore(env, s, dir, f).status)
    ensures f.system ==> NandroidRestoreAsWritten(env, s, dir, f).Some?
  {
    if GatePasses(env, dir) {
      RetAgreesWithPlan(env, s.(filesTotal := 0), dir, RestorePlan(env, f), None);
      if f.system {
        AssigningStepDefinesRet(env, s.(filesTotal := 0), dir, RestorePlan(env, f), None, 2);
      }
    }
  }
}
