/** Which reports of a stored plan the server applies, and at which it stops, told from the
    RBAC configuration and what the run meets. */
module ChangeSetApplies {
  import opened Wrappers
  import opened ServerPlan
  import opened ChangeSet
  import Rbac

  /** The report's connector is the one asked for, if one was. */
  predicate Concerns(t: ApplySetting, r: PlanReport) {
    r.connector.Some? && (t.connectorFilter == None || t.connectorFilter == r.connector)
  }

  /** The user may apply at once, or asks for approval, gets to know who approved, and one of
      them is enough. */
  ghost predicate May(t: ApplySetting, r: PlanReport)
    requires r.connector.Some?
  {
    Rbac.CanApply(t.rbac, t.user, r.prefix, r.connector.value)
    || (&& Rbac.CanApplyWithApproval(t.rbac, t.user, r.prefix, r.connector.value)
        && t.approvals.Ok?
        && Rbac.CanApplyApproved(t.rbac, t.user, r.prefix, r.connector.value, t.approvals.value))
  }

  /** A report is eligible exactly if it concerns the run, the user may, planning it did not
      fail, and there is something to do. */
  lemma EligibleIff(t: ApplySetting, r: PlanReport)
    ensures Eligible(t, r) <==> Concerns(t, r) && May(t, r) && !r.failed && r.ops > 0
  {
    AdmittedIff(t, r);
  }

  lemma AdmittedIff(t: ApplySetting, r: PlanReport)
    ensures Admitted(t, r) <==> Concerns(t, r) && May(t, r)
  {
    if r.connector.Some? {
      NobodyApproves(t.rbac, t.user, r.prefix, r.connector.value);
    }
  }

  lemma NobodyApproves(c: Rbac.Config, user: Rbac.User, prefix: string, connector: string)
    ensures !Rbac.CanApplyApproved(c, user, prefix, connector, [])
  {}

  /** It is not known whether the user may: the approvals would decide, and cannot be had. */
  ghost predicate Undecided(t: ApplySetting, r: PlanReport) {
    && Concerns(t, r)
    && !Rbac.CanApply(t.rbac, t.user, r.prefix, r.connector.value)
    && Rbac.CanApplyWithApproval(t.rbac, t.user, r.prefix, r.connector.value)
    && t.approvals.Err?
  }

  /** The run stops at a report it cannot decide on, and at one it may apply whose check run
      cannot be opened, or, unless planning it had failed, whose connector does not come up,
      or whose check run cannot be closed after it was executed with something to show. */
  lemma StopsIff(t: ApplySetting, i: nat, r: PlanReport)
    ensures !GoesOn(t, i, r) <==>
              || Undecided(t, r)
              || (Concerns(t, r) && May(t, r)
                  && (!t.checkRunOpens(i)
                      || (!r.failed && (!t.spawns(i) || (r.ops > 0 && t.exec(i) != Silent && !t.checkRunCloses(i))))))
  {
    AdmittedIff(t, r);
    AnsweredIff(t, i, r);
  }

  lemma AnsweredIff(t: ApplySetting, i: nat, r: PlanReport)
    ensures false in Answered(t, i, r) <==>
              || (NeedsApprovals(t, r) && t.approvals.Err?)
              || (Admitted(t, r)
                  && (!t.checkRunOpens(i)
                      || (!r.failed && (!t.spawns(i) || (r.ops > 0 && !t.exec(i).Silent? && !t.checkRunCloses(i))))))
  {}

  /** Reports that do not concern the run, or that the user may not apply, never stop it. */
  lemma OthersArePassedOver(t: ApplySetting, i: nat, r: PlanReport)
    requires !Concerns(t, r) || (!May(t, r) && t.approvals.Ok?)
    ensures GoesOn(t, i, r) && !Runs(t, i, r)
  {
    StopsIff(t, i, r);
    EligibleIff(t, r);
  }

  /** Every report of a run names its connector if it shows a failure; of the two of a success
      the second does. */
  lemma ReportsName(t: ApplySetting, i: nat, connector: string)
    ensures var rs := ReportsOf(t.exec(i), connector);
      match t.exec(i)
      case Failed => |rs| == 1 && rs[0].failed && rs[0].connector == connector && rs[0].wrote == []
      case Reported(wrote) =>
        |rs| == 2 && !rs[0].failed && rs[0].wrote == wrote
        && !rs[1].failed && rs[1].connector == connector && rs[1].wrote == []
      case Silent => rs == []
  {}
}
