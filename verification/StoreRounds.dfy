/** The rounds of `autoschematic apply` over the output store itself: references are read
    through `get`, plans are executed by `apply_connector`.  That outputs are kept, and set
    by what is executed, follows from what these do. */
module StoreRounds {
  import opened Wrappers
  import opened LinkStore
  import opened OutputStore
  import opened Template
  import Deferral
  import TwoFiles

  // --------------------------------------------------- operations that only add

  /** No operation removes an output. */
  predicate Additive(answers: seq<OpAnswer>) {
    forall i :: 0 <= i < |answers| ==> AdditiveOne(answers[i])
  }

  predicate AdditiveOne(s: OpAnswer) {
    forall key :: key in s.Changes() ==> s.Changes()[key].Some?
  }

  /** A link written does not hide anything: what could be read through the physical address
      can be read through the virtual one. */
  ghost predicate LinksOpenly(f: Files, virt: Addr, s: OpAnswer)
    requires Acyclic(f)
  {
    !ClosesCycle(f, virt, s) && (s.Links(virt) ==> Contents(f, s.after.value.phy).Keys <= Contents(f, virt).Keys)
  }

  ghost predicate AllLinkOpenly(f: Files, virt: Addr, answers: seq<OpAnswer>)
    requires Acyclic(f)
    decreases |answers|
  {
    if answers == [] then true
    else if !LinksOpenly(f, virt, answers[0]) then false
    else
      ApplyOpKeepsAcyclicIff(f, virt, answers[0]);
      var r := ApplyOp(f, virt, answers[0]);
      r.ok ==> AllLinkOpenly(r.files, virt, answers[1..])
  }

  lemma {:induction false} ContentsOnChain(f: Files, b: Addr, p: Addr)
    requires Halts(f, b) && p in Chain(f, b)
    ensures Halts(f, p) && Contents(f, p) == Contents(f, b)
    decreases Links(f, b)
  {
    if b != p {
      LinksNext(f, b);
      ContentsOnChain(f, f[b].target, p);
    }
  }

  /** Everything that could be read through `b` still can. */
  ghost predicate Grows(f: Files, f': Files, b: Addr)
    requires Halts(f, b)
  {
    Halts(f', b) && Contents(f, b).Keys <= Contents(f', b).Keys
  }

  lemma ChangedGrows(f: Files, virt: Addr, s: OpAnswer, b: Addr)
    requires Halts(f, virt) && Halts(f, b) && AdditiveOne(s)
    ensures Grows(f, Changed(f, virt, s.Changes()), b)
    ensures s.Changes() != map[] ==> Merge(Contents(f, virt), s.Changes()) != map[]
  {
    ChangedRefinesMerge(f, virt, s.Changes(), b);
    ContentsAtTerminal(f, virt);
    ContentsAtTerminal(f, b);
    if key :| key in s.Changes() {
      assert key in Merge(Contents(f, virt), s.Changes());
    }
  }

  /** Linking `p` to an address that offers all that `p` does. */
  lemma LinkGrows(f: Files, p: Addr, v: Addr, b: Addr)
    requires Halts(f, v) && p !in Chain(f, v) && Halts(f, b) && Halts(f, p)
    requires Contents(f, p).Keys <= Contents(f, v).Keys
    ensures Grows(f, f[p := PointerToVirtual(v)], b)
  {
    LinkRedirects(f, p, v, b);
    if p in Chain(f, b) {
      ContentsOnChain(f, b, p);
    }
  }

  lemma ApplyOpGrows(f: Files, virt: Addr, s: OpAnswer, b: Addr)
    requires Acyclic(f) && AdditiveOne(s) && LinksOpenly(f, virt, s)
    ensures Grows(f, ApplyOp(f, virt, s).files, b)
  {
    if s.Runs() && s.Changes() != map[] {
      var f1 := Changed(f, virt, s.Changes());
      ChangedGrows(f, virt, s, b);
      ChangedChain(f, virt, s.Changes());
      if s.Links(virt) {
        var phy := s.after.value.phy;
        ChangedGrows(f, virt, s, phy);
        LinkedKeys(f, virt, s.Changes(), phy);
        LinkGrows(f1, phy, virt, b);
      }
    }
  }

  lemma LinkedKeys(f: Files, virt: Addr, changes: Changes, phy: Addr)
    requires Acyclic(f) && Contents(f, phy).Keys <= Contents(f, virt).Keys && forall key :: key in changes ==> changes[key].Some?
    ensures var f1 := Changed(f, virt, changes);
      Halts(f1, phy) && Halts(f1, virt) && Contents(f1, phy).Keys <= Contents(f1, virt).Keys
  {
    ChangedRefinesMerge(f, virt, changes, phy);
    ChangedRefinesMerge(f, virt, changes, virt);
  }

  /** Applying operations that only add and link openly takes no output away from anybody,
      also if it fails half-way. */
  lemma {:induction false} ApplyOpsGrows(f: Files, virt: Addr, answers: seq<OpAnswer>, wrote: seq<Addr>, b: Addr)
    requires Acyclic(f) && Additive(answers) && AllLinkOpenly(f, virt, answers)
    ensures NoneClosesCycle(f, virt, answers)
    ensures Grows(f, ApplyOps(f, virt, answers, wrote).files, b)
    decreases |answers|
  {
    if answers != [] {
      var r := ApplyOp(f, virt, answers[0]);
      ApplyOpKeepsAcyclicIff(f, virt, answers[0]);
      ApplyOpGrows(f, virt, answers[0], b);
      if r.ok {
        ApplyOpsGrows(r.files, virt, answers[1..], wrote + r.wrote, b);
      }
    }
  }

  predicate Reported(answers: seq<OpAnswer>, key: string) {
    exists i :: 0 <= i < |answers| && key in answers[i].Changes()
  }

  lemma {:induction false} FoldHasReported(m: Outputs, answers: seq<OpAnswer>, key: string)
    requires Additive(answers) && (key in m || Reported(answers, key))
    ensures key in Fold(m, answers)
    decreases |answers|
  {
    if answers != [] {
      if key !in m && key !in answers[0].Changes() {
        var i :| 0 <= i < |answers| && key in answers[i].Changes();
        assert key in answers[1..][i - 1].Changes();
      }
      FoldHasReported(Merge(m, answers[0].Changes()), answers[1..], key);
    }
  }

  lemma {:induction false} AdditiveLeavesNoneStale(m: Outputs, answers: seq<OpAnswer>)
    requires Additive(answers)
    ensures NoneLeavesStale(m, answers)
    decreases |answers|
  {
    if answers != [] {
      if key :| key in answers[0].Changes() {
        assert key in Merge(m, answers[0].Changes());
      }
      AdditiveLeavesNoneStale(Merge(m, answers[0].Changes()), answers[1..]);
    }
  }

  /** After a plan that succeeds, every output it reported can be read. */
  lemma ReportedIsSet(f: Files, virt: Addr, answers: seq<OpAnswer>, key: string)
    requires Acyclic(f) && Additive(answers) && NoneClosesCycle(f, virt, answers) && ApplyOps(f, virt, answers, []).ok
    requires key in Contents(f, virt) || Reported(answers, key)
    ensures Acyclic(ApplyOps(f, virt, answers, []).files)
    ensures Get(ApplyOps(f, virt, answers, []).files, virt, key).Some?
  {
    AdditiveLeavesNoneStale(Contents(f, virt), answers);
    FoldedAtTheEnd(f, virt, answers, []);
    FoldHasReported(Contents(f, virt), answers, key);
    ReadersAgree(ApplyOps(f, virt, answers, []).files, virt, key);
  }

  // ---------------------------------------------------------------- the rounds

  /** The output files, and the resources whose remote state is as their files have it. */
  datatype World = World(files: Files, done: set<Deferral.Path>)

  datatype Connectors = Connectors(
    claims: Deferral.Path -> bool,
    body: Deferral.Path -> Deferral.Body,
    addr: Deferral.Path -> Addr,                      // split_prefix_addr
    refAddr: string -> Addr,                          // the address a reference spells
    mapping: (World, Deferral.Path) -> Result<Deferral.Mapping>,
    get: (World, Deferral.Path) -> bool,
    plan: (World, Deferral.Path, Deferral.Body) -> Result<nat>,
    answers: (World, Deferral.Path, nat) -> seq<OpAnswer>,
    parents: Deferral.Path -> set<ReadOutput>,
    produces: Deferral.Path -> set<ReadOutput>)

  /** `OutputMapFile::get` of what the reference spells. */
  ghost function ReadableIn(c: Connectors, f: Files): Readable {
    (r: ReadOutput) => if Halts(f, c.refAddr(r.addr)) then Get(f, c.refAddr(r.addr), r.key) else None
  }

  /** The operations of a plan, applied; an empty plan changes nothing. */
  ghost function Executed(c: Connectors, w: World, p: Deferral.Path, n: nat): (World, Result<set<ReadOutput>>) {
    var r := ApplyOps(w.files, c.addr(p), c.answers(w, p, n), []);
    if r.ok then (World(r.files, if n > 0 then w.done + {p} else w.done), Ok({})) else (World(r.files, w.done), Err)
  }

  ghost function ToolOf(c: Connectors): Deferral.Tool<World> {
    Deferral.Tool(
      c.claims,
      c.body,
      (w: World) => ReadableIn(c, w.files),
      c.mapping,
      c.get,
      c.plan,
      (w, p, n) => Executed(c, w, p, n),
      c.parents,
      c.produces,
      (w: World, p) => p in w.done)
  }

  /** The store is acyclic, and holds the outputs of what is up to date. */
  ghost predicate Valid(c: Connectors, w: World) {
    Acyclic(w.files) && forall p, r :: p in w.done && r in c.produces(p) ==> ReadableIn(c, w.files)(r).Some?
  }

  /** Executing a plan: it only adds outputs, links openly, and, if it succeeds, reports
      those outputs of the resource that are not in its output file already. */
  ghost predicate HonestExec(c: Connectors, w: World, p: Deferral.Path, n: nat)
    requires Acyclic(w.files)
  {
    var answers, virt := c.answers(w, p, n), c.addr(p);
    && Additive(answers)
    && AllLinkOpenly(w.files, virt, answers)
    && (Executed(c, w, p, n).1.Ok? ==>
          forall r :: r in c.produces(p) ==>
            c.refAddr(r.addr) == virt && (r.key in Contents(w.files, virt) || Reported(answers, r.key)))
  }

  /** Planning: nothing is left to do exactly for what is up to date. */
  ghost predicate HonestPlan(c: Connectors, w: World, p: Deferral.Path) {
    var ops := c.plan(w, p, Deferral.Desired(ToolOf(c), w, p));
    ops.Ok? ==> (ops.value == 0 <==> p in w.done)
  }

  /** What is assumed of the connectors in the worlds that can occur: executing leads from one
      of them to another, and in each of them the connectors keep to their part. */
  ghost predicate HonestIn(c: Connectors, valid: World -> bool) {
    && (forall w :: valid(w) ==> Valid(c, w))
    && (forall w, p, n :: valid(w) && Valid(c, w) && n > 0 ==> HonestExec(c, w, p, n) && valid(Executed(c, w, p, n).0))
    && (forall w, p :: valid(w) ==> Deferral.MappingDefers(ToolOf(c), w, p))
    && (forall w, p :: valid(w) && !Deferral.Waits(ToolOf(c), w, p) ==> HonestPlan(c, w, p))
  }

  lemma ExecutedKeepsReads(c: Connectors, w: World, p: Deferral.Path, n: nat, r: ReadOutput)
    requires Acyclic(w.files) && HonestExec(c, w, p, n) && ReadableIn(c, w.files)(r).Some?
    ensures ReadableIn(c, Executed(c, w, p, n).0.files)(r).Some?
  {
    var a, f' := c.refAddr(r.addr), Executed(c, w, p, n).0.files;
    ApplyOpsGrows(w.files, c.addr(p), c.answers(w, p, n), [], a);
    ReadersAgree(w.files, a, r.key);
    ReadersAgree(f', a, r.key);
  }

  lemma ExecutedSetsOutputs(c: Connectors, w: World, p: Deferral.Path, n: nat, r: ReadOutput)
    requires Acyclic(w.files) && HonestExec(c, w, p, n) && r in c.produces(p) && Executed(c, w, p, n).1.Ok?
    ensures ReadableIn(c, Executed(c, w, p, n).0.files)(r).Some?
  {
    ApplyOpsGrows(w.files, c.addr(p), c.answers(w, p, n), [], c.addr(p));
    ReportedIsSet(w.files, c.addr(p), c.answers(w, p, n), r.key);
  }

  lemma ExecutedStaysValid(c: Connectors, w: World, p: Deferral.Path, n: nat)
    requires Valid(c, w) && HonestExec(c, w, p, n)
    ensures Valid(c, Executed(c, w, p, n).0)
  {
    var (w', result) := Executed(c, w, p, n);
    ApplyOpsGrows(w.files, c.addr(p), c.answers(w, p, n), [], c.addr(p));
    ApplyOpsKeepsAcyclic(w.files, c.addr(p), c.answers(w, p, n), []);
    forall q, r | q in w'.done && r in c.produces(q) ensures ReadableIn(c, w'.files)(r).Some? {
      if q in w.done {
        ExecutedKeepsReads(c, w, p, n, r);
      } else {
        ExecutedSetsOutputs(c, w, p, n, r);
      }
    }
  }

  lemma ExecSettlesOnStore(c: Connectors, valid: World -> bool)
    requires HonestIn(c, valid)
    ensures Deferral.ExecSettles(ToolOf(c), valid)
  {
    forall w, p, n, r | valid(w) && n > 0 && ReadableIn(c, w.files)(r).Some?
      ensures ReadableIn(c, Executed(c, w, p, n).0.files)(r).Some?
    {
      assert Valid(c, w);
      ExecutedKeepsReads(c, w, p, n, r);
    }
  }

  lemma PlansAgreeOnStore(c: Connectors, valid: World -> bool)
    requires HonestIn(c, valid)
    ensures Deferral.PlansAgree(ToolOf(c), valid)
  {
    forall w, p | valid(w) && !Deferral.Waits(ToolOf(c), w, p) ensures HonestPlan(c, w, p) && Valid(c, w) {}
  }

  /** Over the store, with honest connectors, everything holds that the rounds rely on. */
  lemma {:induction false} HonestIsWellBehaved(c: Connectors, valid: World -> bool)
    requires HonestIn(c, valid)
    ensures Deferral.WellBehaved(ToolOf(c), valid)
  {
    ExecSettlesOnStore(c, valid);
    PlansAgreeOnStore(c, valid);
  }

  /** So a run that succeeds ends within the number of staged files plus one rounds, with the
      store acyclic, every output still there, those of all finished resources set, and
      nothing deferred if what is needed has acyclic sources. */
  lemma StoreRoundsEnd(c: Connectors, valid: World -> bool, w: World, staged: seq<Deferral.Path>, w': World, n: nat,
                       rank: Deferral.Path -> nat)
    requires HonestIn(c, valid) && valid(w) && Deferral.Rounds(ToolOf(c), w, staged, w', n)
    ensures n <= |staged| + 1
    ensures valid(w') && Valid(c, w') && Deferral.KeepsReads(ToolOf(c), w, w')
    ensures Deferral.BlockedForGood(ToolOf(c), w', staged)
    ensures Deferral.Ranked(ToolOf(c), w, staged, rank) ==>
              forall p :: p in staged && c.claims(p) ==> !Deferral.Waits(ToolOf(c), w', p)
  {
    HonestIsWellBehaved(c, valid);
    Deferral.RoundsEnd(ToolOf(c), valid, w, staged, w', n);
    Deferral.UnsettledAtMostStaged(ToolOf(c), w, staged);
    if Deferral.Ranked(ToolOf(c), w, staged, rank) {
      forall p | p in staged && c.claims(p) ensures !Deferral.Waits(ToolOf(c), w', p) {
        Deferral.RankedLeavesNothingDeferred(ToolOf(c), w, w', staged, rank, p);
      }
    }
  }

  // -------------------------------------------------------- physical addresses

  /** The physical address of a resource, if it has one besides its virtual address. */
  type Naming = Deferral.Path -> Option<Addr>

  /** Physical addresses are nobody's virtual ones, nor shared by two of them. */
  ghost predicate Separate(c: Connectors, names: Naming) {
    && (forall p, q :: names(p).Some? ==> names(p).value != c.addr(q))
    && (forall p, q :: names(p).Some? && names(q) == names(p) ==> c.addr(p) == c.addr(q))
  }

  /** No virtual address is a link, and at a physical one there is nothing but the link to
      its virtual address. */
  ghost predicate Named(c: Connectors, names: Naming, f: Files) {
    && Acyclic(f)
    && (forall p :: !IsLink(f, c.addr(p)))
    && (forall p :: names(p).Some? && names(p).value in f ==> f[names(p).value] == PointerToVirtual(c.addr(p)))
  }

  ghost function NamedWorlds(c: Connectors, names: Naming): World -> bool {
    w => Valid(c, w) && Named(c, names, w.files)
  }

  /** Operations that only add outputs, and name no physical address but the resource's own. */
  predicate Faithful(c: Connectors, names: Naming, p: Deferral.Path, answers: seq<OpAnswer>) {
    Additive(answers)
    && forall i :: 0 <= i < |answers| ==> answers[i].Links(c.addr(p)) ==> names(p) == Some(answers[i].after.value.phy)
  }

  lemma NotALink(f: Files, a: Addr)
    requires !IsLink(f, a)
    ensures Halts(f, a) && Terminal(f, a) == a && Chain(f, a) == {a}
    ensures Contents(f, a) == if a in f then f[a].entries else map[]
  {
    assert Ends(f, a, 0);
  }

  lemma LinkedReads(f: Files, b: Addr, a: Addr)
    requires Acyclic(f) && b in f && f[b] == PointerToVirtual(a)
    ensures Contents(f, b) == Contents(f, a)
  {
    LinksNext(f, b);
    ReadersAgree(f, b, "");
    ReadersAgree(f, a, "");
  }

  lemma NamedLinksOpenly(c: Connectors, names: Naming, f: Files, p: Deferral.Path, s: OpAnswer)
    requires Separate(c, names) && Named(c, names, f) && Faithful(c, names, p, [s])
    ensures LinksOpenly(f, c.addr(p), s)
  {
    assert [s][0] == s;
    NotALink(f, c.addr(p));
    if s.Links(c.addr(p)) {
      var b := s.after.value.phy;
      if b in f {
        LinkedReads(f, b, c.addr(p));
      } else {
        NotALink(f, b);
      }
    }
  }

  lemma NamedStays(c: Connectors, names: Naming, f: Files, p: Deferral.Path, s: OpAnswer)
    requires Separate(c, names) && Named(c, names, f) && Faithful(c, names, p, [s])
    ensures Named(c, names, ApplyOp(f, c.addr(p), s).files)
  {
    var virt := c.addr(p);
    assert [s][0] == s;
    NamedLinksOpenly(c, names, f, p, s);
    ApplyOpKeepsAcyclicIff(f, virt, s);
    NotALink(f, virt);
    ChangedGrows(f, virt, s, virt);
  }

  /** Imports leave it so, as applies do. */
  lemma ImportStaysNamed(c: Connectors, names: Naming, f: Files, p: Deferral.Path, m: Outputs)
    requires Separate(c, names) && Named(c, names, f)
    ensures Named(c, names, Published(f, c.addr(p), if names(p).Some? then names(p).value else c.addr(p), m))
  {
    PublishedKeepsAcyclic(f, c.addr(p), if names(p).Some? then names(p).value else c.addr(p), m);
  }

  lemma {:induction false} NamedThroughout(c: Connectors, names: Naming, f: Files, p: Deferral.Path, answers: seq<OpAnswer>,
                                           wrote: seq<Addr>)
    requires Separate(c, names) && Named(c, names, f) && Faithful(c, names, p, answers)
    ensures AllLinkOpenly(f, c.addr(p), answers) && NoneClosesCycle(f, c.addr(p), answers)
    ensures Named(c, names, ApplyOps(f, c.addr(p), answers, wrote).files)
    decreases |answers|
  {
    if answers != [] {
      var s, r := answers[0], ApplyOp(f, c.addr(p), answers[0]);
      assert Faithful(c, names, p, [s]);
      NamedLinksOpenly(c, names, f, p, s);
      NamedStays(c, names, f, p, s);
      if r.ok {
        NamedThroughout(c, names, r.files, p, answers[1..], wrote + r.wrote);
      }
    }
  }

  /** What is assumed of connectors with a naming scheme: nothing of it is about the store. */
  ghost predicate FaithfulConnectors(c: Connectors, names: Naming) {
    Separate(c, names) && FaithfulAnswers(c, names) && FaithfulPlans(c, names)
  }

  ghost predicate FaithfulAnswers(c: Connectors, names: Naming) {
    && (forall w, p, n :: n > 0 ==> Faithful(c, names, p, c.answers(w, p, n)))
    && (forall w, p, n, r :: NamedWorlds(c, names)(w) && n > 0 && r in c.produces(p) && Executed(c, w, p, n).1.Ok? ==>
          c.refAddr(r.addr) == c.addr(p) && (r.key in Contents(w.files, c.addr(p)) || Reported(c.answers(w, p, n), r.key)))
  }

  ghost predicate FaithfulPlans(c: Connectors, names: Naming) {
    && (forall w, p :: NamedWorlds(c, names)(w) ==> Deferral.MappingDefers(ToolOf(c), w, p))
    && (forall w, p :: NamedWorlds(c, names)(w) && !Deferral.Waits(ToolOf(c), w, p) ==> HonestPlan(c, w, p))
  }

  lemma FaithfulExec(c: Connectors, names: Naming, w: World, p: Deferral.Path, n: nat)
    requires FaithfulConnectors(c, names) && NamedWorlds(c, names)(w) && n > 0
    ensures HonestExec(c, w, p, n) && NamedWorlds(c, names)(Executed(c, w, p, n).0)
  {
    NamedThroughout(c, names, w.files, p, c.answers(w, p, n), []);
    ExecutedStaysValid(c, w, p, n);
  }

  /** Such connectors are honest in every store in which physical addresses are what they
      should be, links included. */
  lemma FaithfulIsHonest(c: Connectors, names: Naming)
    requires FaithfulConnectors(c, names)
    ensures HonestIn(c, NamedWorlds(c, names))
  {
    forall w, p, n | NamedWorlds(c, names)(w) && n > 0
      ensures HonestExec(c, w, p, n) && NamedWorlds(c, names)(Executed(c, w, p, n).0)
    {
      FaithfulExec(c, names, w, p, n);
    }
  }

  // ------------------------------------------------------------- an instance

  /** Two files: executing `p`, which lives at `a` and physically at `b`, reports the output
      `r`; `q` is text that refers to it. */
  function TwoOnStore(r: ReadOutput, p: Deferral.Path, q: Deferral.Path, a: Addr, b: Addr, d: Addr): Connectors {
    Connectors(
      x => x == p || x == q,
      x => if x == q then Deferral.Text(r.IntoString()) else Deferral.Binary(""),
      x => if x == p then a else d,
      x => a,
      (w, x) => Ok(Deferral.NotPresent),
      (w, x) => true,
      (w: World, x, body) => Ok(if x in w.done then 0 else 1),
      (w, x, n) => if n == 0 then [] else [if x == p then Linking(r.key, b) else QUIET],
      x => {},
      x => if x == p then {r} else {})
  }

  function Linking(key: string, b: Addr): OpAnswer {
    OpAnswer(Ok(NotPresent), Ok(Some(map[key := Some("")])), Ok(Present(b)))
  }

  const QUIET := OpAnswer(Ok(NotPresent), Ok(None), Ok(NotPresent))

  function NamesOfTwo(p: Deferral.Path, b: Addr): Naming {
    x => if x == p then Some(b) else None
  }

  lemma ApplyOneOp(f: Files, virt: Addr, s: OpAnswer)
    requires s.Touches() ==> Halts(f, virt)
    ensures ApplyOps(f, virt, [s], []).files == ApplyOp(f, virt, s).files && ApplyOps(f, virt, [s], []).ok == ApplyOp(f, virt, s).ok
  {
    assert [s][1..] == [] && [s][0] == s;
  }

  /** Either execution succeeds; that of `p` leaves its output at `a` and the link at `b`. */
  lemma TwoOnStoreExecutes(r: ReadOutput, p: Deferral.Path, q: Deferral.Path, a: Addr, b: Addr, d: Addr,
                           w: World, x: Deferral.Path, n: nat)
    requires b != a && b != d && n > 0
    requires Named(TwoOnStore(r, p, q, a, b, d), NamesOfTwo(p, b), w.files)
    ensures var c, (w', result) := TwoOnStore(r, p, q, a, b, d), Executed(TwoOnStore(r, p, q, a, b, d), w, x, n);
      && result.Ok? && w'.done == w.done + {x}
      && (x == p ==> b in w'.files && w'.files[b] == PointerToVirtual(a))
      && (x != p ==> w'.files == w.files)
  {
    var c := TwoOnStore(r, p, q, a, b, d);
    var s := if x == p then Linking(r.key, b) else QUIET;
    TwoOnStoreFaithful(r, p, q, a, b, d, w, x, n);
    NamedThroughout(c, NamesOfTwo(p, b), w.files, x, [s], []);
    ApplyOneOp(w.files, c.addr(x), s);
    if x == p {
      assert r.key in Merge(Contents(w.files, a), s.Changes());
    }
  }

  lemma TwoOnStoreFaithful(r: ReadOutput, p: Deferral.Path, q: Deferral.Path, a: Addr, b: Addr, d: Addr,
                           w: World, x: Deferral.Path, n: nat)
    requires b != a && b != d
    ensures var c := TwoOnStore(r, p, q, a, b, d);
      && Separate(c, NamesOfTwo(p, b))
      && Faithful(c, NamesOfTwo(p, b), x, c.answers(w, x, n))
      && (x == p && n > 0 ==> Reported(c.answers(w, x, n), r.key))
  {
    var c := TwoOnStore(r, p, q, a, b, d);
    if n > 0 {
      var s := if x == p then Linking(r.key, b) else QUIET;
      assert c.answers(w, x, n) == [s];
      FaithfulOne(c, NamesOfTwo(p, b), x, s);
      if x == p {
        assert r.key in [s][0].Changes();
      }
    }
  }

  lemma FaithfulOne(c: Connectors, names: Naming, p: Deferral.Path, s: OpAnswer)
    requires AdditiveOne(s) && (s.Links(c.addr(p)) ==> names(p) == Some(s.after.value.phy))
    ensures Faithful(c, names, p, [s])
  {}

  lemma TwoOnStorePlans(r: ReadOutput, p: Deferral.Path, q: Deferral.Path, a: Addr, b: Addr, d: Addr,
                        w: World, x: Deferral.Path)
    ensures var c := TwoOnStore(r, p, q, a, b, d); Deferral.MappingDefers(ToolOf(c), w, x) && HonestPlan(c, w, x)
  {}

  lemma {:induction false} TwoOnStoreAnswers(r: ReadOutput, p: Deferral.Path, q: Deferral.Path, a: Addr, b: Addr, d: Addr)
    requires b != a && b != d
    ensures var c := TwoOnStore(r, p, q, a, b, d); Separate(c, NamesOfTwo(p, b)) && FaithfulAnswers(c, NamesOfTwo(p, b))
  {
    var c := TwoOnStore(r, p, q, a, b, d);
    forall w, x, n
      ensures Separate(c, NamesOfTwo(p, b)) && Faithful(c, NamesOfTwo(p, b), x, c.answers(w, x, n))
      ensures x == p && n > 0 ==> Reported(c.answers(w, x, n), r.key)
    {
      TwoOnStoreFaithful(r, p, q, a, b, d, w, x, n);
    }
  }

  lemma TwoOnStoreHonest(r: ReadOutput, p: Deferral.Path, q: Deferral.Path, a: Addr, b: Addr, d: Addr)
    requires b != a && b != d
    ensures HonestIn(TwoOnStore(r, p, q, a, b, d), NamedWorlds(TwoOnStore(r, p, q, a, b, d), NamesOfTwo(p, b)))
  {
    var c := TwoOnStore(r, p, q, a, b, d);
    TwoOnStoreAnswers(r, p, q, a, b, d);
    forall w, x ensures Deferral.MappingDefers(ToolOf(c), w, x) && HonestPlan(c, w, x) {
      TwoOnStorePlans(r, p, q, a, b, d, w, x);
    }
    FaithfulIsHonest(c, NamesOfTwo(p, b));
  }

  lemma PlansOnStore(r: ReadOutput, p: Deferral.Path, q: Deferral.Path, a: Addr, b: Addr, d: Addr, w: World)
    requires r.WellFormed() && p != q
    ensures var t := ToolOf(TwoOnStore(r, p, q, a, b, d));
      && Deferral.PlanConnector(t, w, p) == Ok(Deferral.PlanReport(p, if p in w.done then 0 else 1, {}))
      && Deferral.PlanConnector(t, w, q) ==
         (if t.readable(w)(r).None? then Ok(Deferral.PlanReport(q, 0, {r}))
          else Ok(Deferral.PlanReport(q, if q in w.done then 0 else 1, {})))
  {
    var t := ToolOf(TwoOnStore(r, p, q, a, b, d));
    TwoFiles.PlanText(t, w, q, r);
    TwoFiles.PlanBinary(t, w, p);
  }

  /** A round that executes `x`: `p` while it is not done, then `q`. */
  lemma RoundOnStore(r: ReadOutput, p: Deferral.Path, q: Deferral.Path, a: Addr, b: Addr, d: Addr, w: World, first: bool)
    requires r.WellFormed() && p != q && b != a && b != d
    requires Named(TwoOnStore(r, p, q, a, b, d), NamesOfTwo(p, b), w.files)
    requires if first then w.done == {} && ReadableIn(TwoOnStore(r, p, q, a, b, d), w.files)(r).None?
             else w.done == {p} && ReadableIn(TwoOnStore(r, p, q, a, b, d), w.files)(r).Some?
    ensures var c := TwoOnStore(r, p, q, a, b, d);
      Deferral.Round(ToolOf(c), w, [p, q], Executed(c, w, if first then p else q, 1).0, first)
  {
    var c := TwoOnStore(r, p, q, a, b, d);
    var t := ToolOf(c);
    var x := if first then p else q;
    PlansOnStore(r, p, q, a, b, d, w);
    TwoFiles.TwoStaged(t, w, p, q);
    TwoOnStoreExecutes(r, p, q, a, b, d, w, x, 1);
    TwoFiles.RoundOfOne(t, w, [p, q], x, Executed(c, w, x, 1).0, first);
  }

  lemma EmptyStoreIsNamed(c: Connectors, names: Naming, r: ReadOutput)
    ensures NamedWorlds(c, names)(World(map[], {})) && ReadableIn(c, map[])(r).None?
  {
    EmptyStoreIsAcyclic();
  }

  /** The first round, from an empty store. */
  lemma {:induction false} FirstOnStore(r: ReadOutput, p: Deferral.Path, q: Deferral.Path, a: Addr, b: Addr, d: Addr) returns (w1: World)
    requires r.WellFormed() && p != q && b != a && b != d
    ensures var c := TwoOnStore(r, p, q, a, b, d);
      && Deferral.Round(ToolOf(c), World(map[], {}), [p, q], w1, true)
      && w1.done == {p} && b in w1.files && w1.files[b] == PointerToVirtual(a)
      && Named(c, NamesOfTwo(p, b), w1.files) && ReadableIn(c, w1.files)(r).Some?
  {
    var c, w, names := TwoOnStore(r, p, q, a, b, d), World(map[], {}), NamesOfTwo(p, b);
    TwoOnStoreHonest(r, p, q, a, b, d);
    EmptyStoreIsNamed(c, names, r);
    TwoOnStoreExecutes(r, p, q, a, b, d, w, p, 1);
    w1 := Executed(c, w, p, 1).0;
    RoundOnStore(r, p, q, a, b, d, w, true);
    assert HonestExec(c, w, p, 1) && NamedWorlds(c, names)(w1);
    ExecutedSetsOutputs(c, w, p, 1, r);
  }

  /** From an empty store: `q` is deferred in the first round, in which `p` writes its output
      and links its physical address to it, and planned with that output in the second. */
  lemma TwoRoundsOnStore(r: ReadOutput, p: Deferral.Path, q: Deferral.Path, a: Addr, b: Addr, d: Addr)
    requires r.WellFormed() && p != q && b != a && b != d
    ensures var c, w := TwoOnStore(r, p, q, a, b, d), World(map[], {});
      && HonestIn(c, NamedWorlds(c, NamesOfTwo(p, b))) && NamedWorlds(c, NamesOfTwo(p, b))(w)
      && Deferral.PlanConnector(ToolOf(c), w, q) == Ok(Deferral.PlanReport(q, 0, {r}))
      && exists w' :: Deferral.Rounds(ToolOf(c), w, [p, q], w', 2) && w'.done == {p, q}
                      && b in w'.files && w'.files[b] == PointerToVirtual(a)
  {
    var c, w := TwoOnStore(r, p, q, a, b, d), World(map[], {});
    TwoOnStoreHonest(r, p, q, a, b, d);
    EmptyStoreIsNamed(c, NamesOfTwo(p, b), r);
    PlansOnStore(r, p, q, a, b, d, w);
    var w1 := FirstOnStore(r, p, q, a, b, d);
    SecondOnStore(r, p, q, a, b, d, w, w1);
  }

  lemma {:induction false} SecondOnStore(r: ReadOutput, p: Deferral.Path, q: Deferral.Path, a: Addr, b: Addr, d: Addr, w: World, w1: World)
    requires r.WellFormed() && p != q && b != a && b != d
    requires var c := TwoOnStore(r, p, q, a, b, d);
      && Deferral.Round(ToolOf(c), w, [p, q], w1, true)
      && w1.done == {p} && b in w1.files && w1.files[b] == PointerToVirtual(a)
      && Named(c, NamesOfTwo(p, b), w1.files) && ReadableIn(c, w1.files)(r).Some?
    ensures exists w' :: Deferral.Rounds(ToolOf(TwoOnStore(r, p, q, a, b, d)), w, [p, q], w', 2) && w'.done == {p, q}
                         && b in w'.files && w'.files[b] == PointerToVirtual(a)
  {
    var c := TwoOnStore(r, p, q, a, b, d);
    TwoOnStoreExecutes(r, p, q, a, b, d, w1, q, 1);
    var w2 := Executed(c, w1, q, 1).0;
    RoundOnStore(r, p, q, a, b, d, w1, false);
    TwoFiles.TwoRounds(ToolOf(c), w, w1, w2, [p, q]);
  }
}
