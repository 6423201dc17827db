/** What a server plan run looks at, when it ends, and what its reports hold. */
module ServerPlanRuns {
  import opened Collections
  import opened Wrappers
  import opened ServerPlan
  import Rbac

  // ----------------------------------------------------------------- one look

  /** The questions asked about one object, in order, and whether each was answered. */
  function Answered(v: Visit): seq<bool> {
    [v.mapping.Ok?]
    + if v.mapping.Err? || v.mapping.value.Deferred? then []
      else [v.isResource.Ok?]
           + if v.isResource != Ok(true) then []
             else [v.checkRunStarts]
                  + (if v.mapping.value.Known? then [v.get.Ok?] else [])
                  + (if v.body.Some? then [v.body.value.Ok?] else [])
                  + [v.checkRunEnds]
  }

  /** A look ends the run with an error exactly if a question goes unanswered. */
  lemma AbortsIff(v: Visit)
    ensures v.Aborts() <==> false in Answered(v)
  {}

  /** What becomes of an object otherwise: it is deferred if its address is, passed over if the
      connector does not take it for a resource, deferred again if outputs its text needs are
      missing, and planned if none are. */
  lemma LooksAreOfKinds(v: Visit)
    requires !v.Aborts()
    ensures v.AddressDeferred() <==> v.mapping.value.Deferred?
    ensures v.TemplateDeferred() <==>
              !v.mapping.value.Deferred? && v.isResource.value && v.body.Some? && v.body.value.value != {}
    ensures v.Planned() <==>
              !v.mapping.value.Deferred? && v.isResource.value && (v.body.Some? ==> v.body.value.value == {})
  {}

  /** The report of an object that was planned. */
  function ReportOf(t: Setting, i: nat, j: nat, file: string): PlanReport
    requires i < |t.prefixes| && j < |t.prefixes[i].connectors|
  {
    var plan := t.visit(i, j, file).plan;
    PlanReport(t.prefixes[i].name, Some(t.prefixes[i].connectors[j].name), file, if plan.Ok? then plan.value else 0, plan.Err?)
  }

  /** A look that does not end the run appends one report if the object was planned, which
      names it and holds the operations planned or the failure, and none if it was not. */
  lemma LookReports(t: Setting, s: PlanReportSet, i: nat, j: nat, file: string)
    requires i < |t.prefixes| && j < |t.prefixes[i].connectors| && !t.visit(i, j, file).Aborts()
    ensures var v, p := t.visit(i, j, file), Do(t, s, Look(i, j, file));
      && !p.Aborted?
      && p.reportSet.reports == s.reports + (if v.Planned() then [ReportOf(t, i, j, file)] else [])
      && (p.Stopped? <==> v.Planned() && v.plan.Err? && !t.continueOnError)
  {}

  // ---------------------------------------------------------------- whole runs

  /** After this item nothing more is done. */
  predicate Halts(t: Setting, item: Item)
    requires item.i < |t.prefixes| && item.j < |t.prefixes[item.i].connectors|
  {
    match item
    case Start(i, j) => !t.prefixes[i].connectors[j].spawns
    case Look(i, j, file) =>
      var v := t.visit(i, j, file);
      v.Aborts() || (v.Planned() && v.plan.Err? && !t.continueOnError)
  }

  lemma HaltsIff(t: Setting, s: PlanReportSet, item: Item)
    requires item.i < |t.prefixes| && item.j < |t.prefixes[item.i].connectors|
    ensures !Do(t, s, item).Running? <==> Halts(t, item)
    ensures Do(t, s, item).Aborted? <==>
              match item case Start(i, j) => !t.prefixes[i].connectors[j].spawns case Look(i, j, file) => t.visit(i, j, file).Aborts()
  {}

  /** The run goes through the items up to the first that halts it, that one included. */
  lemma {:induction false} CarriedIs(t: Setting, s: PlanReportSet, items: seq<Item>)
    requires InRange(t, items)
    ensures var n := Carried(t, Running(s), items);
      && (forall k :: 0 <= k < n - 1 ==> !Halts(t, items[k]))
      && (n < |items| ==> n > 0)
      && (n > 0 ==> (DoAll(t, Running(s), items).Running? <==> !Halts(t, items[n - 1])))
      && (n < |items| ==> Halts(t, items[n - 1]))
      && (items != [] ==> n > 0)
    decreases |items|
  {
    if items != [] {
      HaltsIff(t, s, items[0]);
      var next := Do(t, s, items[0]);
      if next.Running? {
        CarriedIs(t, next.reportSet, items[1..]);
        var n := Carried(t, Running(s), items);
        assert forall k :: 0 < k < |items| ==> items[k] == items[1..][k - 1];
      }
    }
  }

  function ReportsOf(t: Setting, items: seq<Item>): seq<PlanReport>
    requires InRange(t, items)
  {
    if items == [] then []
    else (match items[0]
          case Start(_, _) => []
          case Look(i, j, file) => if t.visit(i, j, file).Planned() then [ReportOf(t, i, j, file)] else [])
         + ReportsOf(t, items[1..])
  }

  /** The reports of a run are, in order, those of the planned objects among what was looked at. */
  lemma {:induction false} RunReports(t: Setting, p: Progress, items: seq<Item>)
    requires InRange(t, items) && !p.Aborted? && !DoAll(t, p, items).Aborted?
    ensures DoAll(t, p, items).reportSet.reports == p.reportSet.reports + ReportsOf(t, items[..Carried(t, p, items)])
    decreases |items|
  {
    if items != [] && p.Running? {
      var next := Do(t, p.reportSet, items[0]);
      if items[0].Look? {
        DoneLook(t, p.reportSet, items[0]);
      }
      RunReports(t, next, items[1..]);
      var done := items[..Carried(t, p, items)];
      assert done[0] == items[0] && done[1..] == items[1..][..Carried(t, next, items[1..])];
      Associative(p.reportSet.reports, next.reportSet.reports[|p.reportSet.reports|..], ReportsOf(t, done[1..]));
    }
  }

  lemma DoneLook(t: Setting, s: PlanReportSet, item: Item)
    requires item.Look? && item.i < |t.prefixes| && item.j < |t.prefixes[item.i].connectors| && !Do(t, s, item).Aborted?
    ensures Do(t, s, item).reportSet.reports
         == s.reports + if t.visit(item.i, item.j, item.file).Planned() then [ReportOf(t, item.i, item.j, item.file)] else []
  {
    LookReports(t, s, item.i, item.j, item.file);
  }

  // ---------------------------------------------------------------- the work

  lemma {:induction false} FilteredIs(t: Setting, prefix: string, objects: seq<string>, file: string)
    ensures file in Filtered(t, prefix, objects) <==> file in objects && t.under(prefix, file)
  {
    if objects != [] {
      FilteredIs(t, prefix, objects[1..], file);
      assert objects == [objects[0]] + objects[1..];
    }
  }

  lemma LooksAre(i: nat, j: nat, objects: seq<string>, item: Item)
    ensures item in Looks(i, j, objects) <==> item.Look? && item.i == i && item.j == j && item.file in objects
  {
    if item.Look? && item.i == i && item.j == j && item.file in objects {
      var k :| 0 <= k < |objects| && objects[k] == item.file;
      assert Looks(i, j, objects)[k] == item;
    }
  }

  lemma {:induction false} ConnectorWorkIs(t: Setting, i: nat, j: nat, objects: seq<string>, item: Item)
    requires i < |t.prefixes| && j <= |t.prefixes[i].connectors|
    ensures item in ConnectorWork(t, i, j, objects) <==>
              && item.i == i && j <= item.j < |t.prefixes[i].connectors| && t.SelectsConnector(i, item.j)
              && (item.Look? ==> item.file in objects)
    decreases |t.prefixes[i].connectors| - j
  {
    if j < |t.prefixes[i].connectors| {
      ConnectorWorkIs(t, i, j + 1, objects, item);
      LooksAre(i, j, objects, item);
    }
  }

  /** The prefix passes the filter, and some object lies below it and the subpath. */
  lemma SelectsPrefixIff(t: Setting, i: nat)
    requires i < |t.prefixes|
    ensures t.SelectsPrefix(i) <==>
              && (t.prefixFilter.None? || t.prefixFilter.value == t.prefixes[i].name)
              && exists file :: file in t.objects && t.under(t.prefixes[i].name, file)
  {
    var files := Filtered(t, t.prefixes[i].name, t.objects);
    forall file ensures file in files <==> file in t.objects && t.under(t.prefixes[i].name, file) {
      FilteredIs(t, t.prefixes[i].name, t.objects, file);
    }
    if files != [] {
      assert files[0] in files;
    }
  }

  lemma SelectsConnectorIff(t: Setting, i: nat, j: nat)
    requires i < |t.prefixes| && j < |t.prefixes[i].connectors|
    ensures t.SelectsConnector(i, j) <==>
              && (t.connectorFilter.None? || t.connectorFilter.value == t.prefixes[i].connectors[j].name)
              && Rbac.CanRead(t.rbac, t.user, t.prefixes[i].name, t.prefixes[i].connectors[j].name)
  {}

  /** A run looks at an object with a connector exactly if the prefix and the connector pass
      the filters, the user may read there, and the object lies below the prefix and subpath. */
  lemma {:induction false} WorkIs(t: Setting, i: nat, item: Item)
    requires i <= |t.prefixes|
    ensures item in Work(t, i) <==>
              && i <= item.i < |t.prefixes| && t.SelectsPrefix(item.i)
              && item.j < |t.prefixes[item.i].connectors| && t.SelectsConnector(item.i, item.j)
              && (item.Look? ==> item.file in t.objects && t.under(t.prefixes[item.i].name, item.file))
    decreases |t.prefixes| - i
  {
    if i < |t.prefixes| {
      WorkIs(t, i + 1, item);
      if t.SelectsPrefix(i) {
        var objects := Filtered(t, t.prefixes[i].name, t.objects);
        ConnectorWorkIs(t, i, 0, objects, item);
        if item.Look? {
          FilteredIs(t, t.prefixes[i].name, t.objects, item.file);
        }
      }
    }
  }

  /** Prefixes and connectors come in order, and a connector is started before it looks. */
  predicate InOrder(a: Item, b: Item) {
    a.i < b.i || (a.i == b.i && (a.j < b.j || (a.j == b.j && b.Look?)))
  }

  predicate Ordered(items: seq<Item>) {
    forall k, l :: 0 <= k < l < |items| ==> InOrder(items[k], items[l])
  }

  lemma OrderedAppend(a: seq<Item>, b: seq<Item>)
    requires Ordered(a) && Ordered(b) && forall x, y :: x in a && y in b ==> InOrder(x, y)
    ensures Ordered(a + b)
  {
    forall k, l | 0 <= k < l < |a + b| ensures InOrder((a + b)[k], (a + b)[l]) {
      if k < |a| <= l {
        assert a[k] in a && b[l - |a|] in b;
      }
    }
  }

  lemma {:induction false} ConnectorWorkOrdered(t: Setting, i: nat, j: nat, objects: seq<string>)
    requires i < |t.prefixes| && j <= |t.prefixes[i].connectors|
    ensures Ordered(ConnectorWork(t, i, j, objects))
    decreases |t.prefixes[i].connectors| - j
  {
    if j < |t.prefixes[i].connectors| {
      ConnectorWorkOrdered(t, i, j + 1, objects);
      var rest := ConnectorWork(t, i, j + 1, objects);
      forall y | y in rest ensures y.i == i && y.j > j {
        ConnectorWorkIs(t, i, j + 1, objects, y);
      }
      OrderedAppend([Start(i, j)] + Looks(i, j, objects), rest);
    }
  }

  lemma {:induction false} WorkOrdered(t: Setting, i: nat)
    requires i <= |t.prefixes|
    ensures Ordered(Work(t, i))
    decreases |t.prefixes| - i
  {
    if i < |t.prefixes| {
      WorkOrdered(t, i + 1);
      if t.SelectsPrefix(i) {
        var objects := Filtered(t, t.prefixes[i].name, t.objects);
        ConnectorWorkOrdered(t, i, 0, objects);
        forall x, y | x in ConnectorWork(t, i, 0, objects) && y in Work(t, i + 1) ensures InOrder(x, y) {
          ConnectorWorkIs(t, i, 0, objects, x);
          WorkIs(t, i + 1, y);
        }
        OrderedAppend(ConnectorWork(t, i, 0, objects), Work(t, i + 1));
      }
    }
  }
}
