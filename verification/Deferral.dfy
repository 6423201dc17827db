/** Rounds of `autoschematic apply`: plan every staged file, execute every plan that has
    operations, and go again while some files were deferred on missing outputs.  The
    connectors are parameters; what is assumed of them is the predicate `WellBehaved`. */
module Deferral {
  import opened Collections
  import opened Wrappers
  import opened Template

  type Path = string

  datatype Mapping = NotPresent | Deferred(outputs: set<ReadOutput>) | Known

  datatype Body = NoFile | Unreadable | Text(text: string) | Binary(bytes: string)

  /** The world outside: connectors, their remote resources, and the output store, all in
      an abstract state `W`. */
  datatype Tool<!W> = Tool(
    claims: Path -> bool,                             // some connector plans this staged file
    body: Path -> Body,                               // the resource file
    readable: W -> Readable,                          // OutputMapFile::get
    mapping: (W, Path) -> Result<Mapping>,            // addr_virt_to_phy
    get: (W, Path) -> bool,                           // Connector::get works, asked for a known physical address
    ops: (W, Path, Body) -> Result<nat>,              // Connector::plan: how many operations
    exec: (W, Path, nat) -> (W, Result<set<ReadOutput>>), // apply_connector: new state, outputs reported
    parents: Path -> set<ReadOutput>,                 // outputs the mapping is computed from
    produces: Path -> set<ReadOutput>,                // outputs of the resource its file asks for
    settled: (W, Path) -> bool)                       // executed, and nothing left to do

  datatype PlanReport = PlanReport(path: Path, ops: nat, missing: set<ReadOutput>)

  /** `plan_connector`: deferred by the mapping, deferred by templating, or planned. */
  function PlanConnector<W>(t: Tool<W>, w: W, p: Path): (r: Result<PlanReport>)
    ensures r.Ok? && r.value.missing != {} ==> r.value.ops == 0
  {
    match t.mapping(w, p)
    case Err => Err
    case Ok(Deferred(outputs)) => Ok(PlanReport(p, 0, outputs))
    case Ok(mapping) =>
      if mapping.Known? && !t.get(w, p) then Err
      else match t.body(p)
      case Unreadable => Err
      case Text(text) =>
        var missing := Expand(t.readable(w), text).missing;
        if missing != {} then Ok(PlanReport(p, 0, missing)) else Planned(p, t.ops(w, p, Desired(t, w, p)))
      case _ => Planned(p, t.ops(w, p, Desired(t, w, p)))
  }

  function Planned(p: Path, ops: Result<nat>): Result<PlanReport> {
    if ops.Ok? then Ok(PlanReport(p, ops.value, {})) else Err
  }

  /** What the connector is told to make of the resource: the file, its references expanded. */
  function Desired<W>(t: Tool<W>, w: W, p: Path): Body {
    if t.body(p).Text? then Text(Expand(t.readable(w), t.body(p).text).body) else t.body(p)
  }

  // ------------------------------------------------------------ assumptions

  ghost predicate Reads<W>(t: Tool<W>, w: W, r: ReadOutput) {
    t.readable(w)(r).Some?
  }

  /** No output that could be read is taken back. */
  ghost predicate KeepsReads<W>(t: Tool<W>, w: W, w': W) {
    forall r :: Reads(t, w, r) ==> Reads(t, w', r)
  }

  ghost predicate KeepsSettled<W>(t: Tool<W>, w: W, w': W) {
    forall p :: t.settled(w, p) ==> t.settled(w', p)
  }

  /** Everything a resource waits for. */
  function Needs<W>(t: Tool<W>, p: Path): set<ReadOutput> {
    t.parents(p) + if t.body(p).Text? then set r | r in ReadOutputs(t.body(p).text) else {}
  }

  ghost predicate Waits<W>(t: Tool<W>, w: W, p: Path) {
    exists r :: r in Needs(t, p) && !Reads(t, w, r)
  }

  /** Executing operations keeps the state valid, settles the resource if it succeeds,
      unsettles none, and removes no output. */
  ghost predicate ExecSettles<W(!new)>(t: Tool<W>, valid: W -> bool) {
    forall w, p, n :: valid(w) && n > 0 ==>
      var (w', result) := t.exec(w, p, n);
      && valid(w')
      && (result.Ok? ==> t.settled(w', p))
      && KeepsSettled(t, w, w')
      && KeepsReads(t, w, w')
  }

  /** A resource that waits for nothing, planned as its file has it: if it is settled it
      needs no operations, and if it needs none its outputs are set. */
  ghost predicate PlansAgree<W(!new)>(t: Tool<W>, valid: W -> bool) {
    forall w, p :: valid(w) && !Waits(t, w, p) ==>
      var ops := t.ops(w, p, Desired(t, w, p));
      && (t.settled(w, p) && ops.Ok? ==> ops.value == 0)
      && (ops == Ok(0) ==> forall r :: r in t.produces(p) ==> Reads(t, w, r))
  }

  /** An address that can be mapped is deferred exactly while an output of its parents is
      not set, and on such outputs only. */
  ghost predicate MappingDefers<W(!new)>(t: Tool<W>, w: W, p: Path) {
    t.mapping(w, p).Ok? ==>
      var mapping := t.mapping(w, p).value;
      && (mapping.Deferred? <==> exists r :: r in t.parents(p) && !Reads(t, w, r))
      && (mapping.Deferred? ==>
            && mapping.outputs != {}
            && forall r :: r in mapping.outputs ==> r in t.parents(p) && !Reads(t, w, r))
  }

  /** What is assumed of the connectors, in the states that can occur. */
  ghost predicate WellBehaved<W(!new)>(t: Tool<W>, valid: W -> bool) {
    ExecSettles(t, valid) && PlansAgree(t, valid) && forall w, p :: valid(w) ==> MappingDefers(t, w, p)
  }

  /** A resource is deferred exactly while something it needs cannot be read, and it is
      deferred on such outputs only. */
  lemma DeferredIffWaits<W(!new)>(t: Tool<W>, w: W, p: Path)
    requires MappingDefers(t, w, p)
    ensures PlanConnector(t, w, p).Ok? ==>
              var m := PlanConnector(t, w, p).value.missing;
              && (m != {} <==> Waits(t, w, p))
              && (forall r :: r in m ==> r in Needs(t, p) && !Reads(t, w, r))
  {
    if t.mapping(w, p).Err? {
    } else if t.mapping(w, p).value.Deferred? {
      var r :| r in t.mapping(w, p).value.outputs;
      assert r in Needs(t, p) && !Reads(t, w, r);
    } else if t.body(p).Text? {
      ExpandSplitsReferences(t.readable(w), t.body(p).text);
      var missing := Expand(t.readable(w), t.body(p).text).missing;
      assert forall r :: r in missing <==> r in ReadOutputs(t.body(p).text) && !Reads(t, w, r);
      if missing != {} {
        var r :| r in missing;
        assert r in Needs(t, p) && !Reads(t, w, r);
      }
    }
  }

  // ------------------------------------------------------------------ rounds

  ghost predicate Blocked<W>(t: Tool<W>, w: W, staged: seq<Path>, p: Path) {
    p in staged && t.claims(p) && Waits(t, w, p)
  }

  /** `p` needs this output, it is not set, and no staged resource that is through sets it. */
  ghost predicate BlockedOn<W>(t: Tool<W>, w: W, staged: seq<Path>, p: Path, r: ReadOutput) {
    && r in Needs(t, p) && !Reads(t, w, r)
    && forall q :: q in staged && t.claims(q) && !Waits(t, w, q) ==> r !in t.produces(q)
  }

  /** Going on would not help: whatever is still deferred has its reason in an output that
      no finished resource produces. */
  ghost predicate BlockedForGood<W>(t: Tool<W>, w: W, staged: seq<Path>) {
    forall p :: Blocked(t, w, staged, p) ==> exists r :: BlockedOn(t, w, staged, p, r)
  }

  function Unsettled<W>(t: Tool<W>, w: W, staged: seq<Path>): set<Path> {
    set p | p in staged && !t.settled(w, p)
  }

  predicate AllPlan<W>(t: Tool<W>, w: W, staged: seq<Path>) {
    forall p :: p in staged && t.claims(p) ==> PlanConnector(t, w, p).Ok?
  }

  function WithOps<W>(t: Tool<W>, w: W, staged: seq<Path>): seq<PlanReport> {
    if staged == [] then [] else OneWithOps(t, w, staged[0]) + WithOps(t, w, staged[1..])
  }

  function OneWithOps<W>(t: Tool<W>, w: W, p: Path): seq<PlanReport> {
    if !t.claims(p) then []
    else match PlanConnector(t, w, p)
      case Ok(r) => if r.ops > 0 then [r] else []
      case Err => []
  }

  function WithMissing<W>(t: Tool<W>, w: W, staged: seq<Path>): seq<PlanReport> {
    if staged == [] then [] else OneWithMissing(t, w, staged[0]) + WithMissing(t, w, staged[1..])
  }

  function OneWithMissing<W>(t: Tool<W>, w: W, p: Path): seq<PlanReport> {
    if !t.claims(p) then []
    else match PlanConnector(t, w, p)
      case Ok(r) => if r.missing != {} then [r] else []
      case Err => []
  }

  lemma {:induction false} WithOpsIs<W>(t: Tool<W>, w: W, staged: seq<Path>, r: PlanReport)
    ensures r in WithOps(t, w, staged) <==>
              r.path in staged && t.claims(r.path) && PlanConnector(t, w, r.path) == Ok(r) && r.ops > 0
  {
    if staged != [] {
      WithOpsIs(t, w, staged[1..], r);
      assert r.path in staged <==> r.path == staged[0] || r.path in staged[1..];
    }
  }

  lemma {:induction false} WithMissingIs<W>(t: Tool<W>, w: W, staged: seq<Path>, r: PlanReport)
    ensures r in WithMissing(t, w, staged) <==>
              r.path in staged && t.claims(r.path) && PlanConnector(t, w, r.path) == Ok(r) && r.missing != {}
  {
    if staged != [] {
      WithMissingIs(t, w, staged[1..], r);
      assert r.path in staged <==> r.path == staged[0] || r.path in staged[1..];
    }
  }

  /** What a round executes and what it defers: all there is of either kind, and no more. */
  lemma {:induction false} RoundTakes<W>(t: Tool<W>, w: W, staged: seq<Path>, r: PlanReport)
    ensures r in WithOps(t, w, staged) <==>
              r.path in staged && t.claims(r.path) && PlanConnector(t, w, r.path) == Ok(r) && r.ops > 0
    ensures r in WithMissing(t, w, staged) <==>
              r.path in staged && t.claims(r.path) && PlanConnector(t, w, r.path) == Ok(r) && r.missing != {}
  {
    WithOpsIs(t, w, staged, r);
    WithMissingIs(t, w, staged, r);
  }

  /** Where a path plans operations, or waits, the round has its report. */
  lemma RoundMisses<W>(t: Tool<W>, w: W, staged: seq<Path>, p: Path)
    requires p in staged && t.claims(p) && PlanConnector(t, w, p).Ok?
    ensures WithOps(t, w, staged) == [] ==> PlanConnector(t, w, p).value.ops == 0
    ensures WithMissing(t, w, staged) == [] ==> PlanConnector(t, w, p).value.missing == {}
  {
    RoundTakes(t, w, staged, PlanConnector(t, w, p).value);
  }

  /** The plan loop: in the order of the files, the reports that have operations, and those
      deferred apart; an error as soon as a claimed file cannot be planned. */
  method PlanAll<W(!new)>(t: Tool<W>, w: W, staged: seq<Path>)
    returns (ok: bool, reports: seq<PlanReport>, deferred: seq<PlanReport>)
    ensures ok <==> AllPlan(t, w, staged)
    ensures ok ==> reports == WithOps(t, w, staged) && deferred == WithMissing(t, w, staged)
  {
    reports, deferred := [], [];
    assert staged[0..] == staged;
    for i := 0 to |staged|
      invariant AllPlan(t, w, staged[..i])
      invariant WithOps(t, w, staged) == reports + WithOps(t, w, staged[i..])
      invariant WithMissing(t, w, staged) == deferred + WithMissing(t, w, staged[i..])
    {
      NextFile(t, w, staged, i, reports, deferred);
      var planned, missing;
      ok, planned, missing := PlanOne(t, w, staged[i]);
      if !ok {
        return;
      }
      reports, deferred := reports + planned, deferred + missing;
    }
    ok := true;
    assert staged[..|staged|] == staged;
  }

  lemma NextFile<W>(t: Tool<W>, w: W, staged: seq<Path>, i: nat, reports: seq<PlanReport>, deferred: seq<PlanReport>)
    requires i < |staged|
    ensures AllPlan(t, w, staged[..i + 1]) <==>
              AllPlan(t, w, staged[..i]) && (t.claims(staged[i]) ==> PlanConnector(t, w, staged[i]).Ok?)
    ensures reports + WithOps(t, w, staged[i..]) == reports + OneWithOps(t, w, staged[i]) + WithOps(t, w, staged[i + 1..])
    ensures deferred + WithMissing(t, w, staged[i..])
         == deferred + OneWithMissing(t, w, staged[i]) + WithMissing(t, w, staged[i + 1..])
  {
    assert staged[..i + 1] == staged[..i] + [staged[i]];
    assert staged[i..][1..] == staged[i + 1..];
    Associative(reports, OneWithOps(t, w, staged[i]), WithOps(t, w, staged[i + 1..]));
    Associative(deferred, OneWithMissing(t, w, staged[i]), WithMissing(t, w, staged[i + 1..]));
  }

  /** The body of the plan loop: at most one report for either list. */
  method PlanOne<W>(t: Tool<W>, w: W, p: Path) returns (ok: bool, reports: seq<PlanReport>, deferred: seq<PlanReport>)
    ensures ok <==> (t.claims(p) ==> PlanConnector(t, w, p).Ok?)
    ensures ok ==> reports == OneWithOps(t, w, p) && deferred == OneWithMissing(t, w, p)
  {
    ok, reports, deferred := true, [], [];
    if !t.claims(p) {
      return;
    }
    var planned := PlanConnector(t, w, p);
    if planned.Err? {
      return false, [], [];
    }
    if planned.value.missing != {} {
      deferred := [planned.value];
    }
    if planned.value.ops == 0 {
      return;
    }
    reports := [planned.value];
  }

  /** The plans executed one after the other, each in the state the last one left, up to
      the first failure; and whether there was none. */
  function Executed<W>(t: Tool<W>, w: W, reports: seq<PlanReport>): (W, bool) {
    if reports == [] then (w, true)
    else match t.exec(w, reports[0].path, reports[0].ops)
      case (w', Err) => (w', false)
      case (w', Ok(_)) => Executed(t, w', reports[1..])
  }

  /** Executing settles what it executes, and takes nothing back, also if it fails. */
  lemma {:induction false} ExecutedSettles<W(!new)>(t: Tool<W>, valid: W -> bool, w: W, reports: seq<PlanReport>)
    requires ExecSettles(t, valid) && valid(w) && forall r :: r in reports ==> r.ops > 0
    ensures var (w', ok) := Executed(t, w, reports);
      && valid(w')
      && (ok ==> forall r :: r in reports ==> t.settled(w', r.path))
      && KeepsSettled(t, w, w')
      && KeepsReads(t, w, w')
    decreases |reports|
  {
    if reports != [] {
      assert reports[0] in reports;
      var (next, result) := t.exec(w, reports[0].path, reports[0].ops);
      if result.Ok? {
        ExecutedSettles(t, valid, next, reports[1..]);
        assert reports == [reports[0]] + reports[1..];
      }
    }
  }

  /** The execute loop. */
  method ExecAll<W(!new)>(t: Tool<W>, w: W, reports: seq<PlanReport>)
    returns (ok: bool, w': W, setOutputs: set<ReadOutput>)
    ensures (w', ok) == Executed(t, w, reports)
  {
    w', setOutputs := w, {};
    assert reports[0..] == reports;
    for i := 0 to |reports|
      invariant Executed(t, w, reports) == Executed(t, w', reports[i..])
    {
      assert reports[i..][1..] == reports[i + 1..];
      var (next, result) := t.exec(w', reports[i].path, reports[i].ops);
      w' := next;
      if result.Err? {
        return false, w', setOutputs;
      }
      setOutputs := setOutputs + result.value;
    }
    ok := true;
  }

  /** One round in full: what it executes, and the state after it. */
  ghost predicate Round<W>(t: Tool<W>, w: W, staged: seq<Path>, w': W, goOn: bool) {
    && AllPlan(t, w, staged)
    && Executed(t, w, WithOps(t, w, staged)) == (w', true)
    && (goOn <==> WithOps(t, w, staged) != [] && WithMissing(t, w, staged) != [])
  }

  /** A run that succeeds: rounds, each in the state the last one left, until one has
      nothing to execute or nothing deferred. */
  ghost predicate Rounds<W(!new)>(t: Tool<W>, w: W, staged: seq<Path>, w': W, n: nat)
    decreases n
  {
    if staged == [] then n == 1 && w' == w
    else n > 0 && if n == 1 then Round(t, w, staged, w', false)
    else exists next :: Round(t, w, staged, next, true) && Rounds(t, next, staged, w', n - 1)
  }

  /** `apply`, every prompt answered with yes.  The reports returned are those of the first
      round, as in the source; `rounds` counts the calls. */
  method Apply<W(!new)>(t: Tool<W>, ghost valid: W -> bool, w: W, staged: seq<Path>)
    returns (ok: bool, w': W, reports: seq<PlanReport>, ghost rounds: nat)
    requires WellBehaved(t, valid) && valid(w)
    ensures valid(w')
    ensures rounds <= |Unsettled(t, w, staged)| + 1 <= |staged| + 1
    ensures KeepsReads(t, w, w')
    ensures ok ==> Rounds(t, w, staged, w', rounds) && reports == WithOps(t, w, staged)
    ensures ok ==> BlockedForGood(t, w', staged)
    decreases |Unsettled(t, w, staged)|
  {
    ok, w', reports, rounds := true, w, [], 1;
    UnsettledAtMostStaged(t, w, staged);
    if staged == [] {
      return;
    }
    var deferred;
    ok, reports, deferred := PlanAll(t, w, staged);
    if !ok {
      return;
    }
    if reports == [] {
      NothingPlanned(t, valid, w, staged);
      return;
    }
    var setOutputs;
    ok, w', setOutputs := ExecAll(t, w, reports);
    RoundSettles(t, valid, w, staged);
    if !ok {
      return;
    }
    if deferred != [] {
      RoundShrinks(t, valid, w, w', staged);
      var inner;
      ghost var more, next := 0, w';
      ok, w', inner, more := Apply(t, valid, w', staged);
      rounds := 1 + more;
      assert Round(t, w, staged, next, true);
    } else {
      NothingDeferred(t, valid, w, w', staged);
    }
  }

  lemma RoundSettles<W(!new)>(t: Tool<W>, valid: W -> bool, w: W, staged: seq<Path>)
    requires WellBehaved(t, valid) && valid(w)
    ensures var (w', ok) := Executed(t, w, WithOps(t, w, staged));
      && valid(w')
      && (ok ==> forall r :: r in WithOps(t, w, staged) ==> t.settled(w', r.path))
      && KeepsSettled(t, w, w')
      && KeepsReads(t, w, w')
  {
    forall r | r in WithOps(t, w, staged) ensures r.ops > 0 {
      RoundTakes(t, w, staged, r);
    }
    ExecutedSettles(t, valid, w, WithOps(t, w, staged));
  }

  lemma PlannedNothing<W(!new)>(t: Tool<W>, valid: W -> bool, w: W, q: Path, r: ReadOutput)
    requires WellBehaved(t, valid) && valid(w) && !Waits(t, w, q) && r in t.produces(q)
    requires PlanConnector(t, w, q).Ok? && PlanConnector(t, w, q).value.ops == 0
    ensures Reads(t, w, r)
  {
    assert MappingDefers(t, w, q);
    DeferredIffWaits(t, w, q);
    assert PlanConnector(t, w, q) == Planned(q, t.ops(w, q, Desired(t, w, q)));
  }

  lemma NothingPlanned<W(!new)>(t: Tool<W>, valid: W -> bool, w: W, staged: seq<Path>)
    requires WellBehaved(t, valid) && valid(w)
    requires AllPlan(t, w, staged) && WithOps(t, w, staged) == []
    ensures BlockedForGood(t, w, staged)
  {
    forall p | Blocked(t, w, staged, p)
      ensures exists r :: BlockedOn(t, w, staged, p, r)
    {
      var r :| r in Needs(t, p) && !Reads(t, w, r);
      forall q | q in staged && t.claims(q) && !Waits(t, w, q) ensures r !in t.produces(q) {
        if r in t.produces(q) {
          RoundMisses(t, w, staged, q);
          PlannedNothing(t, valid, w, q, r);
        }
      }
      assert BlockedOn(t, w, staged, p, r);
    }
  }

  lemma NothingDeferred<W(!new)>(t: Tool<W>, valid: W -> bool, w: W, w': W, staged: seq<Path>)
    requires WellBehaved(t, valid) && valid(w)
    requires AllPlan(t, w, staged) && WithMissing(t, w, staged) == []
    requires KeepsReads(t, w, w')
    ensures forall p :: p in staged && t.claims(p) ==> !Waits(t, w', p)
  {
    forall p | p in staged && t.claims(p) ensures !Waits(t, w', p) {
      RoundMisses(t, w, staged, p);
      assert MappingDefers(t, w, p);
      DeferredIffWaits(t, w, p);
    }
  }

  /** Every round that executes something leaves fewer files unsettled. */
  lemma RoundShrinks<W(!new)>(t: Tool<W>, valid: W -> bool, w: W, w': W, staged: seq<Path>)
    requires WellBehaved(t, valid) && valid(w)
    requires WithOps(t, w, staged) != [] && Executed(t, w, WithOps(t, w, staged)) == (w', true)
    ensures |Unsettled(t, w', staged)| < |Unsettled(t, w, staged)|
  {
    RoundSettles(t, valid, w, staged);
    var r := WithOps(t, w, staged)[0];
    RoundTakes(t, w, staged, r);
    var p := r.path;
    assert MappingDefers(t, w, p);
    DeferredIffWaits(t, w, p);
    assert PlanConnector(t, w, p) == Planned(p, t.ops(w, p, Desired(t, w, p)));
    assert !t.settled(w, p);
    var a, b := Unsettled(t, w', staged), Unsettled(t, w, staged);
    assert p in b && p !in a && a <= b - {p};
    CardinalityMonotone(a, b - {p});
  }

  ghost predicate EndsWell<W(!new)>(t: Tool<W>, valid: W -> bool, w: W, staged: seq<Path>, w': W, n: nat) {
    valid(w') && KeepsReads(t, w, w') && n <= |Unsettled(t, w, staged)| + 1 && BlockedForGood(t, w', staged)
  }

  lemma EndsWellLater<W(!new)>(t: Tool<W>, valid: W -> bool, w: W, next: W, staged: seq<Path>, w': W, n: nat)
    requires KeepsReads(t, w, next) && |Unsettled(t, next, staged)| < |Unsettled(t, w, staged)|
    requires EndsWell(t, valid, next, staged, w', n)
    ensures EndsWell(t, valid, w, staged, w', n + 1)
  {
    KeepsReadsOn(t, w, next, w');
  }

  lemma KeepsReadsOn<W>(t: Tool<W>, w: W, next: W, w': W)
    requires KeepsReads(t, w, next) && KeepsReads(t, next, w')
    ensures KeepsReads(t, w, w')
  {}

  /** A round that goes on before a run that ends well. */
  lemma OneMoreRound<W(!new)>(t: Tool<W>, valid: W -> bool, w: W, next: W, staged: seq<Path>, w': W, n: nat)
    requires WellBehaved(t, valid) && valid(w) && Round(t, w, staged, next, true)
    ensures valid(next)
    ensures EndsWell(t, valid, next, staged, w', n) ==> EndsWell(t, valid, w, staged, w', n + 1)
  {
    RoundSettles(t, valid, w, staged);
    RoundShrinks(t, valid, w, next, staged);
    if EndsWell(t, valid, next, staged, w', n) {
      EndsWellLater(t, valid, w, next, staged, w', n);
    }
  }

  /** What a run of rounds comes to, however it was carried out. */
  lemma {:induction false} RoundsEnd<W(!new)>(t: Tool<W>, valid: W -> bool, w: W, staged: seq<Path>, w': W, n: nat)
    requires WellBehaved(t, valid) && valid(w) && Rounds(t, w, staged, w', n)
    ensures EndsWell(t, valid, w, staged, w', n)
    decreases n
  {
    if staged == [] {
      NoRoundsEnd(t, valid, w, w', n);
    } else if n <= 1 {
      LastRound(t, valid, w, staged, w');
    } else {
      var next :| Round(t, w, staged, next, true) && Rounds(t, next, staged, w', n - 1);
      OneMoreRound(t, valid, w, next, staged, w', n - 1);
      RoundsEnd(t, valid, next, staged, w', n - 1);
    }
  }

  lemma NoRoundsEnd<W(!new)>(t: Tool<W>, valid: W -> bool, w: W, w': W, n: nat)
    requires valid(w) && Rounds(t, w, [], w', n)
    ensures EndsWell(t, valid, w, [], w', n)
  {}

  lemma LastRound<W(!new)>(t: Tool<W>, valid: W -> bool, w: W, staged: seq<Path>, w': W)
    requires WellBehaved(t, valid) && valid(w) && Round(t, w, staged, w', false)
    ensures EndsWell(t, valid, w, staged, w', 1)
  {
    RoundSettles(t, valid, w, staged);
    if WithOps(t, w, staged) == [] {
      NothingPlanned(t, valid, w, staged);
    } else {
      NothingDeferred(t, valid, w, w', staged);
    }
  }

  // ------------------------------------------------------ nothing stays deferred

  ghost predicate Wanted<W>(t: Tool<W>, staged: seq<Path>, p: Path, r: ReadOutput) {
    p in staged && t.claims(p) && r in Needs(t, p)
  }

  ghost predicate Source<W>(t: Tool<W>, staged: seq<Path>, q: Path, r: ReadOutput) {
    q in staged && t.claims(q) && r in t.produces(q)
  }

  /** Every needed output is readable from the start or produced by a claimed, staged
      resource of lower rank. */
  ghost predicate Ranked<W>(t: Tool<W>, w: W, staged: seq<Path>, rank: Path -> nat) {
    forall p, r :: Wanted(t, staged, p, r) ==>
      Reads(t, w, r) || exists q :: Source(t, staged, q, r) && rank(q) < rank(p)
  }

  /** Where everything needed has an acyclic source, a run that stopped left nothing deferred. */
  lemma {:induction false} RankedLeavesNothingDeferred<W>(t: Tool<W>, w: W, w': W, staged: seq<Path>, rank: Path -> nat, p: Path)
    requires Ranked(t, w, staged, rank)
    requires BlockedForGood(t, w', staged) && KeepsReads(t, w, w')
    requires p in staged && t.claims(p)
    ensures !Waits(t, w', p)
    decreases rank(p)
  {
    if Blocked(t, w', staged, p) {
      var r :| BlockedOn(t, w', staged, p, r);
      assert Wanted(t, staged, p, r);
      var q :| Source(t, staged, q, r) && rank(q) < rank(p);
      RankedLeavesNothingDeferred(t, w, w', staged, rank, q);
    }
  }

  /** The count of rounds never exceeds the number of staged files plus one. */
  lemma {:induction false} UnsettledAtMostStaged<W>(t: Tool<W>, w: W, staged: seq<Path>)
    ensures |Unsettled(t, w, staged)| <= |staged|
  {
    if staged != [] {
      var rest := staged[1..];
      assert staged == [staged[0]] + rest;
      UnsettledAtMostStaged(t, w, rest);
      assert Unsettled(t, w, staged) <= Unsettled(t, w, rest) + {staged[0]};
      CardinalityMonotone(Unsettled(t, w, staged), Unsettled(t, w, rest) + {staged[0]});
    }
  }
}
