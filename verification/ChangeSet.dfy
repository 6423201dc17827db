/** The server's change set: the stored plan, replaced by a completed plan run and used up
    by one apply. */
module ChangeSet {
  import opened Wrappers
  import opened ServerPlan
  import Rbac

  /** What applying one report comes to: `apply_connector` succeeds with or without a
      report of the files it wrote, or fails. */
  datatype ExecAnswer = Reported(wrote: seq<string>) | Silent | Failed

  /** All answers an apply run gets besides the stored plan. */
  datatype ApplySetting = ApplySetting(
    starts: bool,                       // start_run
    connectorFilter: Option<string>,
    rbac: Rbac.Config,
    user: Rbac.User,
    approvals: Result<seq<Rbac.User>>,  // get_pr_approvals, asked when first needed
    configLoads: bool,
    spawns: nat -> bool,                // get_or_spawn_connector
    checkRunOpens: nat -> bool,
    exec: nat -> ExecAnswer,            // apply_connector
    checkRunCloses: nat -> bool,
    pushes: bool,                       // git add, commit and push of what was written
    finishes: bool)

  datatype ApplyReport = ApplyReport(connector: string, failed: bool, wrote: seq<string>)

  datatype ApplyReportSet = ApplyReportSet(overallSuccess: bool, reports: seq<ApplyReport>)

  /** `ApplyReportSet::default()`. */
  const NOTHING_APPLIED := ApplyReportSet(false, [])

  /** The report passes the filters and the permission check. */
  ghost predicate Admitted(t: ApplySetting, r: PlanReport) {
    && r.connector.Some?
    && (t.connectorFilter.Some? ==> r.connector.value == t.connectorFilter.value)
    && Rbac.Permitted(t.rbac, t.user, r.prefix, r.connector.value, if t.approvals.Ok? then t.approvals.value else [])
  }

  /** The report may reach `apply_connector`. */
  ghost predicate Eligible(t: ApplySetting, r: PlanReport) {
    Admitted(t, r) && !r.failed && r.ops > 0
  }

  /** Approvals have to be asked for to decide on the report. */
  ghost predicate NeedsApprovals(t: ApplySetting, r: PlanReport) {
    && r.connector.Some?
    && (t.connectorFilter.Some? ==> r.connector.value == t.connectorFilter.value)
    && !Rbac.CanApply(t.rbac, t.user, r.prefix, r.connector.value)
    && Rbac.CanApplyWithApproval(t.rbac, t.user, r.prefix, r.connector.value)
  }

  /** What the run depends on while it deals with one report, in order, and whether each went well. */
  ghost function Answered(t: ApplySetting, i: nat, r: PlanReport): seq<bool> {
    (if NeedsApprovals(t, r) then [t.approvals.Ok?] else [])
    + if !Admitted(t, r) then []
      else if r.failed then [t.checkRunOpens(i)]
      else [t.spawns(i), t.checkRunOpens(i)]
           + if r.ops > 0 && !t.exec(i).Silent? then [t.checkRunCloses(i)] else []
  }

  /** The run goes on after this report. */
  ghost predicate GoesOn(t: ApplySetting, i: nat, r: PlanReport) {
    false !in Answered(t, i, r)
  }

  /** The report reaches `apply_connector`, if the run gets to it. */
  ghost predicate Runs(t: ApplySetting, i: nat, r: PlanReport) {
    Eligible(t, r) && t.spawns(i) && t.checkRunOpens(i)
  }

  /** The eligible ones among the first `n` reports, by index. */
  ghost function EligibleUpTo(t: ApplySetting, reports: seq<PlanReport>, n: nat): (xs: seq<nat>)
    requires n <= |reports|
  {
    if n == 0 then []
    else EligibleUpTo(t, reports, n - 1) + if Eligible(t, reports[n - 1]) then [n - 1] else []
  }

  lemma {:induction false} EligibleMember(t: ApplySetting, reports: seq<PlanReport>, n: nat, i: nat)
    requires n <= |reports|
    ensures i in EligibleUpTo(t, reports, n) <==> i < n && Eligible(t, reports[i])
  {
    if n > 0 {
      EligibleMember(t, reports, n - 1, i);
    }
  }

  predicate Ascending(xs: seq<nat>, n: nat) {
    (forall a :: 0 <= a < |xs| ==> xs[a] < n) && forall a, b :: 0 <= a < b < |xs| ==> xs[a] < xs[b]
  }

  lemma AscendingNext(xs: seq<nat>, n: nat)
    requires Ascending(xs, n)
    ensures Ascending(xs + [n], n + 1) && Ascending(xs + [], n + 1)
  {}

  lemma {:induction false} EligibleAscend(t: ApplySetting, reports: seq<PlanReport>, n: nat)
    requires n <= |reports|
    ensures Ascending(EligibleUpTo(t, reports, n), n)
  {
    if n > 0 {
      EligibleAscend(t, reports, n - 1);
      AscendingNext(EligibleUpTo(t, reports, n - 1), n - 1);
    }
  }

  /** Exactly the eligible reports, in plan order. */
  lemma EligibleUpToIs(t: ApplySetting, reports: seq<PlanReport>, n: nat)
    requires n <= |reports|
    ensures forall i: nat :: i in EligibleUpTo(t, reports, n) <==> i < n && Eligible(t, reports[i])
    ensures Ascending(EligibleUpTo(t, reports, n), n)
  {
    EligibleAscend(t, reports, n);
    forall i: nat ensures i in EligibleUpTo(t, reports, n) <==> i < n && Eligible(t, reports[i]) {
      EligibleMember(t, reports, n, i);
    }
  }

  /** What one executed report adds to the reports of the run: a success, the connector's
      own report and a second one that names no files. */
  function ReportsOf(answer: ExecAnswer, connector: string): seq<ApplyReport> {
    match answer
    case Reported(wrote) => [ApplyReport("", false, wrote), ApplyReport(connector, false, [])]
    case Silent => []
    case Failed => [ApplyReport(connector, true, [])]
  }

  function AllReports(t: ApplySetting, plans: seq<PlanReport>, executed: seq<nat>): seq<ApplyReport> {
    if executed == [] then []
    else
      var i := executed[|executed| - 1];
      AllReports(t, plans, executed[..|executed| - 1])
      + if i < |plans| && plans[i].connector.Some? then ReportsOf(t.exec(i), plans[i].connector.value) else []
  }

  lemma AllReportsLast(t: ApplySetting, plans: seq<PlanReport>, executed: seq<nat>, i: nat)
    requires i < |plans| && plans[i].connector.Some?
    ensures AllReports(t, plans, executed + [i]) == AllReports(t, plans, executed) + ReportsOf(t.exec(i), plans[i].connector.value)
  {
    assert (executed + [i])[..|executed|] == executed;
  }

  predicate Valid(plans: seq<PlanReport>, executed: seq<nat>) {
    forall k :: 0 <= k < |executed| ==> executed[k] < |plans| && plans[executed[k]].connector.Some?
  }

  predicate NoneFailed(reports: seq<ApplyReport>) {
    forall k :: 0 <= k < |reports| ==> !reports[k].failed
  }

  /** Some report shows a failure exactly if executing one of the plans failed. */
  lemma {:induction false} FailuresShow(t: ApplySetting, plans: seq<PlanReport>, executed: seq<nat>)
    requires Valid(plans, executed)
    ensures NoneFailed(AllReports(t, plans, executed)) <==> forall k :: 0 <= k < |executed| ==> !t.exec(executed[k]).Failed?
  {
    if executed != [] {
      var n := |executed| - 1;
      var rest, i := executed[..n], executed[n];
      FailuresShow(t, plans, rest);
      assert executed == rest + [i];
      AllReportsLast(t, plans, rest, i);
      NoneFailedAppend(AllReports(t, plans, rest), ReportsOf(t.exec(i), plans[i].connector.value));
      OneFails(t.exec(i), plans[i].connector.value);
    }
  }

  lemma OneFails(answer: ExecAnswer, connector: string)
    ensures NoneFailed(ReportsOf(answer, connector)) <==> !answer.Failed?
  {
    assert answer.Failed? ==> ReportsOf(answer, connector)[0].failed;
  }

  lemma NoneFailedAppend(a: seq<ApplyReport>, b: seq<ApplyReport>)
    ensures NoneFailed(a + b) <==> NoneFailed(a) && NoneFailed(b)
  {
    assert forall k :: 0 <= k < |a| ==> (a + b)[k] == a[k];
    assert forall k :: 0 <= k < |b| ==> (a + b)[|a| + k] == b[k];
  }

  /** All files a list of reports names, in order. */
  function FilesOf(reports: seq<ApplyReport>): seq<string> {
    if reports == [] then [] else FilesOf(reports[..|reports| - 1]) + reports[|reports| - 1].wrote
  }

  function Wrote(t: ApplySetting, executed: seq<nat>): seq<string> {
    if executed == [] then []
    else
      var i := executed[|executed| - 1];
      Wrote(t, executed[..|executed| - 1]) + if t.exec(i).Reported? then t.exec(i).wrote else []
  }

  lemma FilesOfLast(a: seq<ApplyReport>, r: ApplyReport)
    ensures FilesOf(a + [r]) == FilesOf(a) + r.wrote
  {
    assert (a + [r])[..|a|] == a;
  }

  lemma FilesOfMore(a: seq<ApplyReport>, answer: ExecAnswer, connector: string)
    ensures FilesOf(a + ReportsOf(answer, connector)) == FilesOf(a) + if answer.Reported? then answer.wrote else []
  {
    match answer
    case Reported(wrote) =>
      FilesOfLast(a, ApplyReport("", false, wrote));
      FilesOfLast(a + [ApplyReport("", false, wrote)], ApplyReport(connector, false, []));
      assert a + ReportsOf(answer, connector) == a + [ApplyReport("", false, wrote)] + [ApplyReport(connector, false, [])];
      assert FilesOf(a) + wrote + [] == FilesOf(a) + wrote;
    case Silent => assert a + [] == a && FilesOf(a) + [] == FilesOf(a);
    case Failed => FilesOfLast(a, ApplyReport(connector, true, []));
  }

  /** For all their doubling, the reports name every written file once. */
  lemma {:induction false} FilesAreReported(t: ApplySetting, plans: seq<PlanReport>, executed: seq<nat>)
    requires Valid(plans, executed)
    ensures FilesOf(AllReports(t, plans, executed)) == Wrote(t, executed)
  {
    if executed != [] {
      var n := |executed| - 1;
      FilesAreReported(t, plans, executed[..n]);
      assert executed == executed[..n] + [executed[n]];
      AllReportsLast(t, plans, executed[..n], executed[n]);
      FilesOfMore(AllReports(t, plans, executed[..n]), t.exec(executed[n]), plans[executed[n]].connector.value);
    }
  }

  /** What a run that gets through returns: the success flag starts out false and is only
      ever set to false. */
  function Returned(t: ApplySetting, plans: seq<PlanReport>, executed: seq<nat>): ApplyReportSet {
    ApplyReportSet(false, AllReports(t, plans, executed))
  }

  /** So the flag agrees with the reports exactly if some plan failed. */
  lemma SuccessFlagIff(t: ApplySetting, plans: seq<PlanReport>, executed: seq<nat>)
    requires Valid(plans, executed)
    ensures var s := Returned(t, plans, executed);
      (s.overallSuccess <==> NoneFailed(s.reports)) <==> exists k :: 0 <= k < |executed| && t.exec(executed[k]).Failed?
  {
    FailuresShow(t, plans, executed);
  }

  lemma {:induction false} EligiblePrefix(t: ApplySetting, reports: seq<PlanReport>, m: nat, n: nat)
    requires m <= n <= |reports|
    ensures EligibleUpTo(t, reports, m) <= EligibleUpTo(t, reports, n)
    decreases n
  {
    if m < n {
      EligiblePrefix(t, reports, m, n - 1);
    }
  }

  /** The run goes on after each of the first `n` reports. */
  ghost predicate AllGoOn(t: ApplySetting, plans: seq<PlanReport>, n: nat)
    requires n <= |plans|
  {
    forall j :: 0 <= j < n ==> GoesOn(t, j, plans[j])
  }

  /** What is executed of the reports up to that index, that one included if there is one. */
  ghost function ExecutedUpTo(t: ApplySetting, plans: seq<PlanReport>, n: nat): seq<nat>
    requires n <= |plans|
  {
    EligibleUpTo(t, plans, n) + if n < |plans| && Runs(t, n, plans[n]) then [n] else []
  }

  lemma EligibleNext(t: ApplySetting, plans: seq<PlanReport>, i: nat, goOn: bool, ran: bool)
    requires i < |plans| && (goOn <==> GoesOn(t, i, plans[i])) && (ran <==> Runs(t, i, plans[i]))
    requires goOn ==> (ran <==> Eligible(t, plans[i]))
    ensures goOn ==> EligibleUpTo(t, plans, i + 1) == EligibleUpTo(t, plans, i) + if ran then [i] else []
    ensures goOn && AllGoOn(t, plans, i) ==> AllGoOn(t, plans, i + 1)
    ensures EligibleUpTo(t, plans, i) + (if ran then [i] else []) == ExecutedUpTo(t, plans, i)
    ensures ran ==> plans[i].connector.Some?
    ensures EligibleUpTo(t, plans, i) + [] == EligibleUpTo(t, plans, i)
  {}

  /** Whatever happens, only eligible reports are executed, in plan order. */
  lemma ExecutedAreEligible(t: ApplySetting, plans: seq<PlanReport>, n: nat)
    requires n <= |plans|
    ensures ExecutedUpTo(t, plans, n) <= EligibleUpTo(t, plans, |plans|)
  {
    EligiblePrefix(t, plans, n, |plans|);
    if n < |plans| {
      EligiblePrefix(t, plans, n + 1, |plans|);
    }
  }

  // ------------------------------------------------------- the life of a plan

  datatype Event = PlanOk | PlanErr | ApplyOk | ApplyErr

  /** How one call of `plan` or `apply` moves the stored plan on. */
  ghost predicate Follows(before: Option<PlanReportSet>, e: Event, after: Option<PlanReportSet>) {
    match e
    case PlanOk => after.Some? && !after.value.applySuccess
    case PlanErr => after == before
    case ApplyOk => before.Some? && !before.value.applySuccess && after == Some(before.value.(applySuccess := true))
    case ApplyErr => after == before || (before.Some? && after == Some(before.value.(applySuccess := true)))
  }

  lemma {:induction false} StaysUsed(states: seq<Option<PlanReportSet>>, events: seq<Event>, i: nat, j: nat)
    requires |states| == |events| + 1 && i <= j <= |events|
    requires forall k :: 0 <= k < |events| ==> Follows(states[k], events[k], states[k + 1])
    requires states[i].Some? && states[i].value.applySuccess
    requires forall k :: i <= k < j ==> events[k] != PlanOk
    ensures states[j].Some? && states[j].value.applySuccess
    decreases j
  {
    if i < j {
      StaysUsed(states, events, i, j - 1);
      assert Follows(states[j - 1], events[j - 1], states[j]);
    }
  }

  /** However plans and applies are called: between two applies that succeed, a plan did. */
  lemma OneApplyPerPlan(states: seq<Option<PlanReportSet>>, events: seq<Event>, i: nat, j: nat)
    requires |states| == |events| + 1 && i < j < |events|
    requires forall k :: 0 <= k < |events| ==> Follows(states[k], events[k], states[k + 1])
    requires events[i] == ApplyOk && events[j] == ApplyOk
    ensures exists k :: i < k < j && events[k] == PlanOk
  {
    assert Follows(states[i], events[i], states[i + 1]) && Follows(states[j], events[j], states[j + 1]);
    if forall k :: i < k < j ==> events[k] != PlanOk {
      StaysUsed(states, events, i + 1, j);
    }
  }

  class ChangeSet {
    var lastPlan: Option<PlanReportSet>

    constructor ()
      ensures lastPlan == None
    {
      lastPlan := None;
    }

    /** `ChangeSet::plan`. */
    method Plan(t: Setting, starts: bool, finishes: bool) returns (ok: bool)
      modifies this
      ensures var p := DoAll(t, Running(START), Work(t, 0));
        && (ok <==> starts && !p.Aborted? && finishes)
        && lastPlan == if ok then Some(p.reportSet) else old(lastPlan)
      ensures Follows(old(lastPlan), if ok then PlanOk else PlanErr, lastPlan)
    {
      if !starts {
        return false;
      }
      var s := START;
      PlanAccounts(t);
      ghost var total := DoAll(t, Running(START), Work(t, 0));
      var stopped := false;
      label prefixes: for i := 0 to |t.prefixes|
        invariant !stopped && total == DoAll(t, Running(s), Work(t, i))
        invariant lastPlan == old(lastPlan)
      {
        if t.prefixFilter.Some? && t.prefixes[i].name != t.prefixFilter.value {
          continue;
        }
        var objects := FilterObjects(t, t.prefixes[i].name);
        if objects == [] {
          continue;
        }
        var p := PlanPrefix(t, i, objects, s);
        DoAllAppend(t, Running(s), ConnectorWork(t, i, 0, objects), Work(t, i + 1));
        match p {
          case Aborted => return false;
          case Stopped(s') =>
            s, stopped := s', true;
            break prefixes;
          case Running(s') => s := s';
        }
      }
      if !finishes {
        return false;
      }
      lastPlan := Some(s);
      ok := true;
    }

    method FilterObjects(t: Setting, prefix: string) returns (objects: seq<string>)
      ensures objects == Filtered(t, prefix, t.objects)
    {
      objects := [];
      assert t.objects[0..] == t.objects;
      for k := 0 to |t.objects|
        invariant objects + Filtered(t, prefix, t.objects[k..]) == Filtered(t, prefix, t.objects)
      {
        assert t.objects[k..][1..] == t.objects[k + 1..];
        if t.under(prefix, t.objects[k]) {
          objects := objects + [t.objects[k]];
        }
      }
    }

    /** The connector loop of one prefix. */
    method PlanPrefix(t: Setting, i: nat, objects: seq<string>, s0: PlanReportSet) returns (p: Progress)
      requires i < |t.prefixes|
      ensures p == DoAll(t, Running(s0), ConnectorWork(t, i, 0, objects))
    {
      var cs := t.prefixes[i].connectors;
      p := Running(s0);
      for j := 0 to |cs|
        invariant p.Running?
        invariant DoAll(t, Running(s0), ConnectorWork(t, i, 0, objects)) == DoAll(t, p, ConnectorWork(t, i, j, objects))
      {
        if t.connectorFilter.Some? && cs[j].name != t.connectorFilter.value {
          continue;
        }
        var allowed := Rbac.AllowsRead(t.rbac, t.user, t.prefixes[i].name, cs[j].name);
        if !allowed {
          continue;
        }
        var work, rest := [Start(i, j)] + Looks(i, j, objects), ConnectorWork(t, i, j + 1, objects);
        DoAllAppend(t, p, work, rest);
        assert work[0] == Start(i, j) && work[1..] == Looks(i, j, objects);
        if !cs[j].spawns {
          return Aborted;
        }
        p := PlanObjects(t, i, j, objects, p.reportSet);
        if !p.Running? {
          return;
        }
      }
    }

    /** The object loop of one connector. */
    method PlanObjects(t: Setting, i: nat, j: nat, objects: seq<string>, s0: PlanReportSet) returns (p: Progress)
      requires i < |t.prefixes| && j < |t.prefixes[i].connectors|
      ensures p == DoAll(t, Running(s0), Looks(i, j, objects))
    {
      var s := s0;
      for k := 0 to |objects|
        invariant DoAll(t, Running(s0), Looks(i, j, objects)) == DoAll(t, Running(s), Looks(i, j, objects)[k..])
      {
        var v := t.visit(i, j, objects[k]);
        ghost var items := Looks(i, j, objects)[k..];
        assert items[0] == Look(i, j, objects[k]) && items[1..] == Looks(i, j, objects)[k + 1..];
        if v.mapping.Err? {
          return Aborted;
        }
        if v.mapping.value.Deferred? {
          s := s.(deferredCount := s.deferredCount + 1, pending := s.pending + v.mapping.value.outputs);
          continue;
        }
        if v.isResource.Err? {
          return Aborted;
        }
        if v.isResource.value {
          var counted := s.(objectCount := s.objectCount + 1);
          if !v.checkRunStarts || (v.mapping.value.Known? && v.get.Err?) || (v.body.Some? && v.body.value.Err?) {
            return Aborted;
          }
          if v.body.Some? && v.body.value.value != {} {
            if !v.checkRunEnds {
              return Aborted;
            }
            s := counted.(deferredCount := counted.deferredCount + 1, pending := counted.pending + v.body.value.value);
            continue;
          }
          if !v.checkRunEnds {
            return Aborted;
          }
          var prefix, connector := t.prefixes[i].name, t.prefixes[i].connectors[j].name;
          match v.plan {
            case Ok(ops) =>
              s := counted.(reports := counted.reports + [PlanReport(prefix, Some(connector), objects[k], ops, false)]);
            case Err =>
              s := counted.(overallSuccess := false, reports := counted.reports + [PlanReport(prefix, Some(connector), objects[k], 0, true)]);
              if !t.continueOnError {
                return Stopped(s);
              }
          }
        }
      }
      p := Running(s);
    }

    /** The permission check of one report; `None` is the error of asking for approvals. */
    method CheckPermission(t: ApplySetting, prefix: string, connector: string, known: Option<seq<Rbac.User>>)
      returns (r: Option<bool>, known': Option<seq<Rbac.User>>)
      requires known.Some? ==> t.approvals == Ok(known.value)
      ensures known'.Some? ==> t.approvals == Ok(known'.value)
      ensures r.None? <==> !Rbac.CanApply(t.rbac, t.user, prefix, connector)
                           && Rbac.CanApplyWithApproval(t.rbac, t.user, prefix, connector) && t.approvals.Err?
      ensures r.Some? ==> (r.value <==> Rbac.Permitted(t.rbac, t.user, prefix, connector, if t.approvals.Ok? then t.approvals.value else []))
    {
      known' := known;
      var free := Rbac.AllowsApplyWithoutApproval(t.rbac, t.user, prefix, connector);
      if free {
        return Some(true), known';
      }
      var could := Rbac.AllowsApplyWithApproval(t.rbac, t.user, prefix, connector);
      if !could {
        return Some(false), known';
      }
      if known'.None? {
        match t.approvals {
          case Err => return None, known';
          case Ok(users) => known' := Some(users);
        }
      }
      var approved := Rbac.AllowsApplyIfApprovedBy(t.rbac, t.user, prefix, connector, known'.value);
      r := Some(approved);
    }

    /** One report of the stored plan: whether the run goes on, whether the report reached
        `apply_connector`, and the reports with what is added to them. */
    method ApplyOne(t: ApplySetting, i: nat, plan: PlanReport, known: Option<seq<Rbac.User>>, s: ApplyReportSet)
      returns (goOn: bool, ran: bool, known': Option<seq<Rbac.User>>, out: ApplyReportSet)
      requires known.Some? ==> t.approvals == Ok(known.value)
      ensures known'.Some? ==> t.approvals == Ok(known'.value)
      ensures goOn <==> GoesOn(t, i, plan)
      ensures ran <==> Runs(t, i, plan)
      ensures goOn ==> (ran <==> Eligible(t, plan))
      ensures goOn ==> out.reports == s.reports + if ran then ReportsOf(t.exec(i), plan.connector.value) else []
      ensures goOn ==> out.overallSuccess == (s.overallSuccess && !(ran && t.exec(i).Failed?))
    {
      known', ran, out := known, false, s;
      if plan.connector.None? {
        return true, ran, known', out;
      }
      if t.connectorFilter.Some? && plan.connector.value != t.connectorFilter.value {
        return true, ran, known', out;
      }
      var permitted;
      permitted, known' := CheckPermission(t, plan.prefix, plan.connector.value, known');
      if permitted.None? {
        return false, ran, known', out;
      }
      if !permitted.value {
        return true, ran, known', out;
      }
      if plan.failed {
        return t.checkRunOpens(i), ran, known', out;
      }
      if !t.spawns(i) || !t.checkRunOpens(i) {
        return false, ran, known', out;
      }
      goOn := true;
      if plan.ops > 0 {
        ran := true;
        match t.exec(i) {
          case Reported(wrote) =>
            out := out.(reports := out.reports + [ApplyReport("", false, wrote)]);
            if !t.checkRunCloses(i) {
              return false, ran, known', out;
            }
            out := out.(reports := out.reports + [ApplyReport(plan.connector.value, false, [])]);
          case Silent =>
          case Failed =>
            out := out.(overallSuccess := false);
            if !t.checkRunCloses(i) {
              return false, ran, known', out;
            }
            out := out.(reports := out.reports + [ApplyReport(plan.connector.value, true, [])]);
        }
      }
    }

    /** The loop over the stored plan's reports, up to the first, `at`, after which it does not
        go on; `done` if it got through. */
    method ApplyAll(t: ApplySetting, plans: seq<PlanReport>)
      returns (done: bool, executed: seq<nat>, reports: ApplyReportSet, ghost at: nat)
      ensures at <= |plans| && AllGoOn(t, plans, at)
      ensures done <==> at == |plans|
      ensures !done ==> !GoesOn(t, at, plans[at])
      ensures executed == ExecutedUpTo(t, plans, at)
      ensures done ==> reports == Returned(t, plans, executed)
    {
      executed, reports, at := [], NOTHING_APPLIED, 0;
      var prApprovals: Option<seq<Rbac.User>> := None;
      for i := 0 to |plans|
        invariant prApprovals.Some? ==> t.approvals == Ok(prApprovals.value)
        invariant executed == EligibleUpTo(t, plans, i)
        invariant reports == Returned(t, plans, executed)
        invariant at == i && AllGoOn(t, plans, i)
      {
        var goOn, ran, out;
        goOn, ran, prApprovals, out := ApplyOne(t, i, plans[i], prApprovals, reports);
        EligibleNext(t, plans, i, goOn, ran);
        if ran {
          AllReportsLast(t, plans, executed, i);
          executed := executed + [i];
        }
        if !goOn {
          return false, executed, reports, i;
        }
        reports, at := out, i + 1;
      }
      done := true;
    }

    /** `ChangeSet::apply`.  `executed` lists, by index, the reports handed to
        `apply_connector`: never one that is not eligible, and all that are if it succeeds. */
    method Apply(t: ApplySetting) returns (ok: bool, executed: seq<nat>, reports: ApplyReportSet)
      modifies this
      ensures Follows(old(lastPlan), if ok then ApplyOk else ApplyErr, lastPlan)
      ensures old(lastPlan).None? || old(lastPlan).value.applySuccess || !t.starts || !t.configLoads ==>
                !ok && executed == [] && lastPlan == old(lastPlan)
      ensures old(lastPlan).Some? && !old(lastPlan).value.applySuccess && t.starts && t.configLoads ==>
                var plans := old(lastPlan).value.reports;
                && (ok <==> AllGoOn(t, plans, |plans|) && t.pushes && t.finishes)
                && lastPlan == Some(old(lastPlan).value.(applySuccess := AllGoOn(t, plans, |plans|) && t.pushes))
                && (exists n :: 0 <= n <= |plans| && AllGoOn(t, plans, n) && executed == ExecutedUpTo(t, plans, n)
                                && (n < |plans| ==> !GoesOn(t, n, plans[n])))
      ensures old(lastPlan).Some? ==>
                var plans := old(lastPlan).value.reports;
                && executed <= EligibleUpTo(t, plans, |plans|)
                && (ok ==> executed == EligibleUpTo(t, plans, |plans|) && reports == Returned(t, plans, executed))
    {
      if !t.starts || lastPlan.None? || lastPlan.value.applySuccess || !t.configLoads {
        return false, [], NOTHING_APPLIED;
      }
      ghost var plans := lastPlan.value.reports;
      ghost var at;
      ok, executed, reports, at := ApplyAll(t, lastPlan.value.reports);
      ExecutedAreEligible(t, plans, at);
      GoesThroughIff(t, plans, at, ok);
      if !ok || !t.pushes {
        ok := false;
        return;
      }
      lastPlan := Some(lastPlan.value.(applySuccess := true));
      ok := t.finishes;
    }
  }

  lemma GoesThroughIff(t: ApplySetting, plans: seq<PlanReport>, at: nat, done: bool)
    requires at <= |plans| && AllGoOn(t, plans, at) && (done <==> at == |plans|) && (!done ==> !GoesOn(t, at, plans[at]))
    ensures AllGoOn(t, plans, |plans|) <==> done
    ensures done ==> ExecutedUpTo(t, plans, at) == EligibleUpTo(t, plans, |plans|)
  {
    assert EligibleUpTo(t, plans, |plans|) + [] == EligibleUpTo(t, plans, |plans|);
  }
}
