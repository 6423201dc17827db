/** The server's plan run: nested loops over prefixes, connectors and objects with counters,
    skips and an early exit, as one walk over the work in order. */
module ServerPlan {
  import opened Wrappers
  import opened Template
  import Rbac

  datatype PlanReport = PlanReport(prefix: string, connector: Option<string>, file: string, ops: nat, failed: bool)

  datatype PlanReportSet = PlanReportSet(
    overallSuccess: bool,
    applySuccess: bool,
    reports: seq<PlanReport>,
    objectCount: nat,
    deferredCount: nat,
    pending: set<ReadOutput>)

  const START := PlanReportSet(true, false, [], 0, 0, {})

  datatype Mapping = NotPresent | Deferred(outputs: set<ReadOutput>) | Known

  /** All answers the run gets while it looks at one object with one connector.  A
      failing question, check run or file read ends the whole run with an error. */
  datatype Visit = Visit(
    mapping: Result<Mapping>,       // addr_virt_to_phy
    isResource: Result<bool>,       // filter_cached
    checkRunStarts: bool,
    get: Result<()>,                // asked for a known physical address only
    body: Option<Result<set<ReadOutput>>>, // no file, or reading and templating it: what is missing
    plan: Result<nat>,              // Connector::plan: how many operations
    checkRunEnds: bool) {

    /** The object is a resource and gets as far as the look at its file. */
    predicate Counted() {
      && mapping.Ok? && !mapping.value.Deferred? && isResource == Ok(true) && checkRunStarts
      && (mapping.value.Known? ==> get.Ok?) && !(body.Some? && body.value.Err?)
    }

    predicate TemplateDeferred() {
      Counted() && body.Some? && body.value.value != {}
    }

    predicate AddressDeferred() {
      mapping.Ok? && mapping.value.Deferred?
    }

    predicate Planned() {
      Counted() && !TemplateDeferred()
    }

    /** The run ends with an error here. */
    predicate Aborts() {
      || mapping.Err?
      || (!AddressDeferred() && (isResource.Err? || (isResource.value && (!Counted() || !checkRunEnds))))
    }
  }

  datatype Prefix = Prefix(name: string, connectors: seq<Connector>)
  datatype Connector = Connector(name: string, spawns: bool)

  /** One unit of work: the `i`th prefix's `j`th connector is started, or looks at an object. */
  datatype Item = Start(i: nat, j: nat) | Look(i: nat, j: nat, file: string)

  datatype Progress = Running(reportSet: PlanReportSet) | Stopped(reportSet: PlanReportSet) | Aborted

  /** The run's surroundings. */
  datatype Setting = Setting(
    prefixes: seq<Prefix>,
    objects: seq<string>,
    under: (string, string) -> bool,        // the object lies in the prefix, and under the subpath
    visit: (nat, nat, string) -> Visit,
    prefixFilter: Option<string>,
    connectorFilter: Option<string>,
    continueOnError: bool,
    rbac: Rbac.Config,
    user: Rbac.User) {

    ghost predicate SelectsPrefix(i: nat)
      requires i < |prefixes|
    {
      && (prefixFilter.Some? ==> prefixes[i].name == prefixFilter.value)
      && Filtered(this, prefixes[i].name, objects) != []
    }

    ghost predicate SelectsConnector(i: nat, j: nat)
      requires i < |prefixes| && j < |prefixes[i].connectors|
    {
      && (connectorFilter.Some? ==> prefixes[i].connectors[j].name == connectorFilter.value)
      && Rbac.CanRead(rbac, user, prefixes[i].name, prefixes[i].connectors[j].name)
    }
  }

  function DoLook(t: Setting, s: PlanReportSet, prefix: string, connector: string, file: string, v: Visit): Progress {
    if v.Aborts() then Aborted
    else if v.AddressDeferred() then Running(s.(deferredCount := s.deferredCount + 1, pending := s.pending + v.mapping.value.outputs))
    else if !v.isResource.value then Running(s)
    else
      var s1 := s.(objectCount := s.objectCount + 1);
      if v.TemplateDeferred() then
        Running(s1.(deferredCount := s1.deferredCount + 1, pending := s1.pending + v.body.value.value))
      else if v.plan.Ok? then
        Running(s1.(reports := s1.reports + [PlanReport(prefix, Some(connector), file, v.plan.value, false)]))
      else
        var s2 := s1.(overallSuccess := false, reports := s1.reports + [PlanReport(prefix, Some(connector), file, 0, true)]);
        if t.continueOnError then Running(s2) else Stopped(s2)
  }

  function Do(t: Setting, s: PlanReportSet, item: Item): Progress
    requires item.i < |t.prefixes| && item.j < |t.prefixes[item.i].connectors|
  {
    var prefix := t.prefixes[item.i];
    match item
    case Start(_, j) => if prefix.connectors[j].spawns then Running(s) else Aborted
    case Look(i, j, file) => DoLook(t, s, prefix.name, prefix.connectors[j].name, file, t.visit(i, j, file))
  }

  /** The work in order, up to where it stops. */
  function DoAll(t: Setting, p: Progress, items: seq<Item>): Progress
    requires InRange(t, items)
    decreases |items|
  {
    if items == [] || !p.Running? then p else DoAll(t, Do(t, p.reportSet, items[0]), items[1..])
  }

  predicate InRange(t: Setting, items: seq<Item>) {
    forall k :: 0 <= k < |items| ==> items[k].i < |t.prefixes| && items[k].j < |t.prefixes[items[k].i].connectors|
  }

  // ------------------------------------------------------- the work to be done

  function Filtered(t: Setting, prefix: string, objects: seq<string>): seq<string> {
    if objects == [] then []
    else (if t.under(prefix, objects[0]) then [objects[0]] else []) + Filtered(t, prefix, objects[1..])
  }

  function Looks(i: nat, j: nat, objects: seq<string>): (items: seq<Item>)
    ensures |items| == |objects| && forall k :: 0 <= k < |items| ==> items[k] == Look(i, j, objects[k])
  {
    seq(|objects|, k requires 0 <= k < |objects| => Look(i, j, objects[k]))
  }

  /** The work of one prefix from its `j`th connector on. */
  ghost function ConnectorWork(t: Setting, i: nat, j: nat, objects: seq<string>): (items: seq<Item>)
    requires i < |t.prefixes| && j <= |t.prefixes[i].connectors|
    ensures InRange(t, items)
    decreases |t.prefixes[i].connectors| - j
  {
    var cs := t.prefixes[i].connectors;
    if j == |cs| then []
    else if !t.SelectsConnector(i, j) then ConnectorWork(t, i, j + 1, objects)
    else [Start(i, j)] + Looks(i, j, objects) + ConnectorWork(t, i, j + 1, objects)
  }

  /** The work from the `i`th prefix on. */
  ghost function Work(t: Setting, i: nat): (items: seq<Item>)
    requires i <= |t.prefixes|
    ensures InRange(t, items)
    decreases |t.prefixes| - i
  {
    if i == |t.prefixes| then []
    else if !t.SelectsPrefix(i) then Work(t, i + 1)
    else ConnectorWork(t, i, 0, Filtered(t, t.prefixes[i].name, t.objects)) + Work(t, i + 1)
  }

  lemma {:induction false} DoAllAppend(t: Setting, p: Progress, a: seq<Item>, b: seq<Item>)
    requires InRange(t, a) && InRange(t, b) && InRange(t, a + b)
    ensures DoAll(t, p, a + b) == DoAll(t, DoAll(t, p, a), b)
    decreases |a|
  {
    if a == [] {
      assert a + b == b;
    } else if p.Running? {
      assert (a + b)[1..] == a[1..] + b;
      DoAllAppend(t, Do(t, p.reportSet, a[0]), a[1..], b);
    }
  }

  // ---------------------------------------------------------------- accounting

  /** How many items are carried out, the one that stops the run included. */
  function Carried(t: Setting, p: Progress, items: seq<Item>): (n: nat)
    requires InRange(t, items)
    ensures n <= |items|
    decreases |items|
  {
    if items == [] || !p.Running? then 0 else 1 + Carried(t, Do(t, p.reportSet, items[0]), items[1..])
  }

  function AddressDeferrals(t: Setting, items: seq<Item>): nat {
    if items == [] then 0
    else (if items[0].Look? && t.visit(items[0].i, items[0].j, items[0].file).AddressDeferred() then 1 else 0) + AddressDeferrals(t, items[1..])
  }

  /** The outputs named by the deferrals among the items. */
  function Awaited(t: Setting, items: seq<Item>): set<ReadOutput> {
    if items == [] then {}
    else (match items[0]
          case Start(_, _) => {}
          case Look(i, j, file) =>
            var v := t.visit(i, j, file);
            if v.AddressDeferred() then v.mapping.value.outputs else if v.TemplateDeferred() then v.body.value.value else {})
         + Awaited(t, items[1..])
  }

  function TemplateDeferrals(t: Setting, items: seq<Item>): nat {
    if items == [] then 0
    else (if items[0].Look? && t.visit(items[0].i, items[0].j, items[0].file).TemplateDeferred() then 1 else 0) + TemplateDeferrals(t, items[1..])
  }

  function Failures(reports: seq<PlanReport>): nat {
    if reports == [] then 0 else (if reports[0].failed then 1 else 0) + Failures(reports[1..])
  }

  lemma {:induction false} FailuresAppend(a: seq<PlanReport>, r: PlanReport)
    ensures Failures(a + [r]) == Failures(a) + if r.failed then 1 else 0
  {
    if a != [] {
      assert (a + [r])[1..] == a[1..] + [r];
      FailuresAppend(a[1..], r);
    }
  }

  /** What the counters, the success flag and the list of reports have to do with each other. */
  ghost predicate Consistent(s: PlanReportSet, addressDeferred: nat, templateDeferred: nat, awaited: set<ReadOutput>) {
    && s.objectCount == |s.reports| + templateDeferred
    && s.deferredCount == addressDeferred + templateDeferred
    && (s.overallSuccess <==> Failures(s.reports) == 0)
    && s.pending == awaited
    && !s.applySuccess
  }

  /** After a step that does not abort: consistent, and stopped by nothing but a failed
      plan that is the last report. */
  ghost predicate Sound(t: Setting, p: Progress, a: nat, d: nat, w: set<ReadOutput>) {
    !p.Aborted? ==>
      && Consistent(p.reportSet, a, d, w)
      && (!t.continueOnError && p.Running? ==> Failures(p.reportSet.reports) == 0)
      && (p.Stopped? ==> !t.continueOnError && Failures(p.reportSet.reports) == 1 && p.reportSet.reports[|p.reportSet.reports| - 1].failed)
  }

  lemma CountFirst(t: Setting, items: seq<Item>)
    requires items != []
    ensures AddressDeferrals(t, items) == AddressDeferrals(t, [items[0]]) + AddressDeferrals(t, items[1..])
    ensures TemplateDeferrals(t, items) == TemplateDeferrals(t, [items[0]]) + TemplateDeferrals(t, items[1..])
    ensures Awaited(t, items) == Awaited(t, [items[0]]) + Awaited(t, items[1..])
  {}

  lemma DoAccounts(t: Setting, s: PlanReportSet, item: Item, a: nat, d: nat, w: set<ReadOutput>)
    requires item.i < |t.prefixes| && item.j < |t.prefixes[item.i].connectors| && Sound(t, Running(s), a, d, w)
    ensures Sound(t, Do(t, s, item), a + AddressDeferrals(t, [item]), d + TemplateDeferrals(t, [item]), w + Awaited(t, [item]))
  {
    var next := Do(t, s, item);
    if !next.Aborted? && next.reportSet.reports != s.reports {
      FailuresAppend(s.reports, next.reportSet.reports[|s.reports|]);
    }
  }

  /** Through every skip and the early exit: objects are counted once, deferred or
      reported; and unless errors are to be passed over, only the last report can be one. */
  lemma {:induction false} DoAllAccounts(t: Setting, p: Progress, items: seq<Item>, a: nat, d: nat, w: set<ReadOutput>)
    requires InRange(t, items) && Sound(t, p, a, d, w)
    ensures var done := items[..Carried(t, p, items)];
      Sound(t, DoAll(t, p, items), a + AddressDeferrals(t, done), d + TemplateDeferrals(t, done), w + Awaited(t, done))
    decreases |items|
  {
    if items != [] && p.Running? {
      var next, rest := Do(t, p.reportSet, items[0]), items[1..];
      var done := items[..Carried(t, p, items)];
      assert done[0] == items[0] && done[1..] == rest[..Carried(t, next, rest)];
      CountFirst(t, done);
      DoAccounts(t, p.reportSet, items[0], a, d, w);
      DoAllAccounts(t, next, rest, a + AddressDeferrals(t, [items[0]]), d + TemplateDeferrals(t, [items[0]]), w + Awaited(t, [items[0]]));
    }
  }

  /** The outcome of a whole run. */
  lemma PlanAccounts(t: Setting)
    ensures var items := Work(t, 0);
      var done := items[..Carried(t, Running(START), items)];
      Sound(t, DoAll(t, Running(START), items), AddressDeferrals(t, done), TemplateDeferrals(t, done), Awaited(t, done))
  {
    DoAllAccounts(t, Running(START), Work(t, 0), 0, 0, {});
  }
}
