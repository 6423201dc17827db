/** The writers of the output store: `apply_output_map`, importing a fetched resource,
    renaming, and folding the outputs of executed operations.  The class does what the
    code does, step by step; the functions say what that amounts to. */
module OutputStore {
  import opened Wrappers
  import opened LinkStore

  // ------------------------------------------------------ what writers do

  /** A plain map update: set every `Some` key, remove every `None` key. */
  function Merge(m: Outputs, changes: Changes): (r: Outputs)
    ensures forall k :: k in r <==> if k in changes then changes[k].Some? else k in m
    ensures forall k :: k in r ==> r[k] == if k in changes then changes[k].value else m[k]
  {
    map k | k in m.Keys + changes.Keys && (k in changes ==> changes[k].Some?)
      :: if k in changes then changes[k].value else m[k]
  }

  /** The store after `apply_output_map`. */
  ghost function Changed(f: Files, a: Addr, changes: Changes): Files
    requires Halts(f, a)
  {
    var m := Merge(Contents(f, a), changes);
    if m == map[] then f else f[Terminal(f, a) := OutputMap(m)]
  }

  /** Through every address, the outcome is that of a plain map update on one shared map:
      addresses whose chain stops at the same file see it, all others see nothing. */
  lemma ChangedRefinesMerge(f: Files, a: Addr, changes: Changes, b: Addr)
    requires Halts(f, a) && Halts(f, b)
    ensures var m := Merge(Contents(f, a), changes);
      var f' := Changed(f, a, changes);
      && Halts(f', b)
      && Terminal(f', b) == Terminal(f, b)
      && Contents(f', b) == (if m != map[] && Terminal(f, b) == Terminal(f, a) then m else Contents(f, b))
      && (m != map[] ==> Halts(f', a) && Resolve(f', a) == Some(Terminal(f, a)))
      && (forall x: Addr :: x != Terminal(f, a) ==> (x in f' <==> x in f) && (x in f ==> f'[x] == f[x]))
  {
    var m := Merge(Contents(f, a), changes);
    if m != map[] {
      var t := Terminal(f, a);
      CutKeepsChains(f, Changed(f, a, changes), t, b);
      CutKeepsChains(f, Changed(f, a, changes), t, a);
      TerminalOnChain(f, a);
      TerminalOnChain(f, b);
      if t in Chain(f, b) {
        LastOfChain(f, b, t);
      }
      ContentsAtTerminal(Changed(f, a, changes), b);
      ReadersAgree(Changed(f, a, changes), a, "");
    }
  }

  lemma {:induction false} TerminalOnChain(f: Files, a: Addr)
    requires Halts(f, a)
    ensures Terminal(f, a) in Chain(f, a)
    decreases Links(f, a)
  {
    if IsLink(f, a) {
      LinksNext(f, a);
      TerminalOnChain(f, f[a].target);
    }
  }

  lemma {:induction false} LastOfChain(f: Files, a: Addr, t: Addr)
    requires Halts(f, a) && t in Chain(f, a) && !IsLink(f, t)
    ensures t == Terminal(f, a)
    decreases Links(f, a)
  {
    if IsLink(f, a) {
      LinksNext(f, a);
      LastOfChain(f, f[a].target, t);
    }
  }

  /** A map at the virtual address and a link to it from a differing physical one: what
      both an import and a rename leave behind. */
  function Published(f: Files, virt: Addr, phy: Addr, m: Outputs): Files {
    var f1 := f[virt := OutputMap(m)];
    if phy == virt then f1 else f1[phy := PointerToVirtual(virt)]
  }

  /** Publishing cannot create a cycle, whatever was there before. */
  lemma PublishedEffects(f: Files, virt: Addr, phy: Addr, m: Outputs, b: Addr)
    requires Halts(f, b)
    ensures var f' := Published(f, virt, phy, m);
      && Halts(f', b) && Halts(f', phy) && Halts(f', virt)
      && Resolve(f', phy) == Some(virt)
      && Contents(f', virt) == Contents(f', phy) == m
      && Contents(f', b) == (if virt in Chain(f, b) || phy in Chain(f, b) then m else Contents(f, b))
  {
    var f1 := f[virt := OutputMap(m)];
    var f' := Published(f, virt, phy, m);
    CutKeepsChains(f, f1, virt, b);
    assert Ends(f1, virt, 0);
    assert Ends(f', virt, 0);
    ChainOfCut(f, f1, virt, phy, b);
    ContentsAtTerminal(f1, b);
    if phy != virt {
      LinkRedirects(f1, phy, virt, b);
      assert Ends(f', phy, 1);
    }
  }

  /** Cutting the chain at `v` can only drop what came after `v`. */
  lemma {:induction false} ChainOfCut(f: Files, f': Files, v: Addr, p: Addr, b: Addr)
    requires Halts(f, b) && Halts(f', b) && CutAt(f, f', v)
    ensures Chain(f', b) <= Chain(f, b)
    ensures v in Chain(f, b) <==> v in Chain(f', b)
    ensures p in Chain(f, b) && v !in Chain(f, b) ==> p in Chain(f', b)
    decreases Links(f, b)
  {
    if b != v && IsLink(f, b) {
      LinksNext(f, b);
      LinksNext(f', b);
      ChainOfCut(f, f', v, p, f[b].target);
    }
  }

  lemma PublishedKeepsAcyclic(f: Files, virt: Addr, phy: Addr, m: Outputs)
    requires Acyclic(f)
    ensures Acyclic(Published(f, virt, phy, m))
  {
    forall b: Addr ensures Halts(Published(f, virt, phy, m), b) {
      PublishedEffects(f, virt, phy, m, b);
    }
  }

  /** Every key reads the same through `a` in both stores. */
  ghost predicate SameReads(f: Files, f': Files, a: Addr)
    requires Halts(f, a) && Halts(f', a)
  {
    forall key :: Get(f', a, key) == Get(f, a, key)
  }

  lemma SameReadsIffSameContents(f: Files, f': Files, a: Addr)
    requires Halts(f, a) && Halts(f', a)
    ensures SameReads(f, f', a) <==> Contents(f, a) == Contents(f', a)
  {
    var m, m' := Contents(f, a), Contents(f', a);
    forall key ensures Get(f', a, key) == Lookup(m', key) && Get(f, a, key) == Lookup(m, key) {
      ReadersAgree(f', a, key);
      ReadersAgree(f, a, key);
    }
    if SameReads(f, f', a) {
      forall key ensures Lookup(m', key) == Lookup(m, key) {
        assert Get(f', a, key) == Get(f, a, key);
      }
      SameLookups(m, m');
    }
  }

  /** Renaming: the physical address resolves to the new virtual one; what is read
      through it is unchanged exactly if it offered the renamed outputs before. */
  lemma RenameEffects(f: Files, oldAddr: Addr, newAddr: Addr, phy: Addr)
    requires Halts(f, oldAddr) && Halts(f, phy) && ReadRecurse(f, oldAddr).Some?
    ensures var f' := Published(f, newAddr, phy, Contents(f, oldAddr));
      && Halts(f', phy) && Resolve(f', phy) == Some(newAddr)
      && (SameReads(f, f', phy) <==> Contents(f, phy) == Contents(f, oldAddr))
  {
    var f' := Published(f, newAddr, phy, Contents(f, oldAddr));
    PublishedEffects(f, newAddr, phy, Contents(f, oldAddr), phy);
    SameReadsIffSameContents(f, f', phy);
  }

  lemma SameLookups(m: Outputs, m': Outputs)
    requires forall key :: Lookup(m', key) == Lookup(m, key)
    ensures m == m'
  {
    forall key ensures key in m <==> key in m' {
      assert Lookup(m', key) == Lookup(m, key);
    }
    forall key | key in m ensures m[key] == m'[key] {
      assert Lookup(m', key) == Lookup(m, key);
    }
  }

  // ------------------------------------------------- executing operations

  /** How a connector maps a virtual address to a physical one. */
  datatype VirtToPhy = NotPresent | Deferred | Present(phy: Addr) | Null(phy: Addr)

  /** Everything a connector answers while one operation is applied: the mapping asked
      before executing it, the outputs it reports, and the mapping asked after the
      store was written. */
  datatype OpAnswer = OpAnswer(before: Result<VirtToPhy>, exec: Result<Option<Changes>>, after: Result<VirtToPhy>) {

    /** The operation runs: its address is known and executing it succeeds. */
    predicate Runs() {
      before.Ok? && !before.value.Deferred? && exec.Ok?
    }

    function Changes(): Changes {
      if exec.Ok? && exec.value.Some? then exec.value.value else map[]
    }

    /** The output store is read and perhaps written. */
    predicate Touches() {
      Runs() && Changes() != map[]
    }

    predicate Links(virt: Addr) {
      after.Ok? && after.value.Present? && after.value.phy != virt
    }
  }

  /** The store, whether to go on, and the output files reported as written so far. */
  datatype Applied = Applied(files: Files, ok: bool, wrote: seq<Addr>)

  ghost function ApplyOp(f: Files, virt: Addr, s: OpAnswer): Applied
    requires s.Touches() ==> Halts(f, virt)
  {
    if !s.Runs() then Applied(f, false, [])
    else if s.Changes() == map[] then Applied(f, true, [])
    else
      var f1 := Changed(f, virt, s.Changes());
      if s.after.Err? then Applied(f1, false, [])
      else if Merge(Contents(f, virt), s.Changes()) != map[] then
        if s.Links(virt)
        then Applied(f1[s.after.value.phy := PointerToVirtual(virt)], true, [s.after.value.phy, virt])
        else Applied(f1, true, [virt])
      else if s.after.value.Present? then
        var f2, w := f - {virt}, if virt in f then [virt] else [];
        if s.Links(virt)
        then Applied(f2 - {s.after.value.phy}, true, w + if s.after.value.phy in f then [s.after.value.phy] else [])
        else Applied(f2, true, w)
      else Applied(f1, true, [])
  }

  /** The operation writes a link that closes a cycle: the map it leaves is not empty, and
      the physical address is itself on the chain of the virtual one. */
  ghost predicate ClosesCycle(f: Files, virt: Addr, s: OpAnswer)
    requires Halts(f, virt)
  {
    && s.Runs() && s.Changes() != map[] && Merge(Contents(f, virt), s.Changes()) != map[]
    && s.Links(virt) && s.after.value.phy in Chain(f, virt)
  }

  /** Exactly when applying an operation keeps the store acyclic. */
  lemma ApplyOpKeepsAcyclicIff(f: Files, virt: Addr, s: OpAnswer)
    requires Acyclic(f)
    ensures Acyclic(ApplyOp(f, virt, s).files) <==> !ClosesCycle(f, virt, s)
  {
    if s.Runs() && s.Changes() != map[] {
      var f1 := Changed(f, virt, s.Changes());
      CutKeepsAcyclic(f, f1, Terminal(f, virt));
      ChangedChain(f, virt, s.Changes());
      if s.after.Ok? && s.after.value.Present? {
        LinkKeepsAcyclicIff(f1, s.after.value.phy, virt);
        CutKeepsAcyclic(f, f - {virt}, virt);
        CutKeepsAcyclic(f - {virt}, f - {virt} - {s.after.value.phy}, s.after.value.phy);
      }
    }
  }

  lemma ChangedChain(f: Files, virt: Addr, changes: Changes)
    requires Halts(f, virt)
    ensures Halts(Changed(f, virt, changes), virt)
    ensures Chain(Changed(f, virt, changes), virt) == Chain(f, virt)
  {
    var f' := Changed(f, virt, changes);
    CutKeepsChains(f, f', Terminal(f, virt), virt);
    CutAtEndKeepsChain(f, f', virt, Terminal(f, virt));
  }

  lemma {:induction false} CutAtEndKeepsChain(f: Files, f': Files, b: Addr, t: Addr)
    requires Halts(f, b) && Halts(f', b) && t == Terminal(f, b) && CutAt(f, f', t)
    ensures Chain(f', b) == Chain(f, b)
    decreases Links(f, b)
  {
    if IsLink(f, b) {
      LinksNext(f, b);
      LinksNext(f', b);
      CutAtEndKeepsChain(f, f', f[b].target, t);
    }
  }

  /** What one operation does to what is read through the virtual address, and through a
      physical address that was linked to it. */
  lemma ApplyOpEffects(f: Files, virt: Addr, s: OpAnswer)
    requires Acyclic(f) && !ClosesCycle(f, virt, s)
    ensures var r := ApplyOp(f, virt, s);
      && Acyclic(r.files)
      && Chain(r.files, virt) <= Chain(f, virt)
      && (r.ok ==> Contents(r.files, virt) == Outcome(Contents(f, virt), s))
      && (r.ok && s.Changes() != map[] && s.Links(virt) ==>
            Contents(r.files, s.after.value.phy) == Contents(r.files, virt))
  {
    ApplyOpKeepsAcyclicIff(f, virt, s);
    var m := Merge(Contents(f, virt), s.Changes());
    if s.Changes() == map[] {
      assert m == Contents(f, virt);
    } else if s.Runs() {
      ChangedChain(f, virt, s.Changes());
      ChangedRefinesMerge(f, virt, s.Changes(), virt);
      var f1 := Changed(f, virt, s.Changes());
      if s.after.Ok? && s.after.value.Present? {
        var phy := s.after.value.phy;
        if m != map[] {
          if phy != virt {
            CutKeepsAcyclic(f, f1, Terminal(f, virt));
            LinkRedirects(f1, phy, virt, virt);
            LinkRedirects(f1, phy, virt, phy);
            ChainAvoiding(f1, f1[phy := PointerToVirtual(virt)], phy, virt);
          }
        } else {
          var f' := ApplyOp(f, virt, s).files;
          assert Ends(f', virt, 0);
          assert Chain(f', virt) == {virt};
        }
      }
    }
  }

  /** The operation changes outputs and leaves none. */
  predicate Emptied(m: Outputs, s: OpAnswer) {
    s.Changes() != map[] && Merge(m, s.Changes()) == map[]
  }

  /** An emptied map is only deleted if the connector still names a physical address. */
  predicate LeavesStale(m: Outputs, s: OpAnswer) {
    Emptied(m, s) && m != map[] && (s.after.Ok? ==> !s.after.value.Present?)
  }

  function Outcome(m: Outputs, s: OpAnswer): Outputs {
    if LeavesStale(m, s) then m else Merge(m, s.Changes())
  }

  /** All operations of one plan, in order, up to the first failure, or to one that would
      chase pointers without end. */
  ghost function ApplyOps(f: Files, virt: Addr, answers: seq<OpAnswer>, wrote: seq<Addr>): Applied
    decreases |answers|
  {
    if answers == [] then Applied(f, true, wrote)
    else if answers[0].Touches() && !Halts(f, virt) then Applied(f, false, wrote)
    else
      var r := ApplyOp(f, virt, answers[0]);
      if r.ok then ApplyOps(r.files, virt, answers[1..], wrote + r.wrote)
      else Applied(r.files, false, wrote + r.wrote)
  }

  /** No operation closes a cycle in the store it meets. */
  ghost predicate NoneClosesCycle(f: Files, virt: Addr, answers: seq<OpAnswer>)
    requires Acyclic(f)
    decreases |answers|
  {
    if answers == [] then true
    else if ClosesCycle(f, virt, answers[0]) then false
    else
      ApplyOpKeepsAcyclicIff(f, virt, answers[0]);
      var r := ApplyOp(f, virt, answers[0]);
      r.ok ==> NoneClosesCycle(r.files, virt, answers[1..])
  }

  /** No operation that is applied chases pointers without end. */
  ghost predicate Returns(f: Files, virt: Addr, answers: seq<OpAnswer>)
    decreases |answers|
  {
    answers != [] ==>
      && (answers[0].Touches() ==> Halts(f, virt))
      && var r := ApplyOp(f, virt, answers[0]);
      r.ok ==> Returns(r.files, virt, answers[1..])
  }

  lemma {:induction false} AcyclicReturns(f: Files, virt: Addr, answers: seq<OpAnswer>)
    requires Acyclic(f) && NoneClosesCycle(f, virt, answers)
    ensures Returns(f, virt, answers)
    decreases |answers|
  {
    if answers != [] {
      ApplyOpKeepsAcyclicIff(f, virt, answers[0]);
      var r := ApplyOp(f, virt, answers[0]);
      if r.ok {
        AcyclicReturns(r.files, virt, answers[1..]);
      }
    }
  }

  /** Once an operation has closed a cycle, the next one of the plan that touches the store
      does not return: the virtual address is on that cycle. */
  lemma ClosedCycleHangs(f: Files, virt: Addr, s: OpAnswer)
    requires Acyclic(f) && ClosesCycle(f, virt, s)
    ensures !Halts(ApplyOp(f, virt, s).files, virt)
  {
    var f1, phy := Changed(f, virt, s.Changes()), s.after.value.phy;
    CutKeepsAcyclic(f, f1, Terminal(f, virt));
    ChangedChain(f, virt, s.Changes());
    BackLinkHangs(f1, phy, virt);
  }

  lemma BackLinkHangs(f: Files, p: Addr, v: Addr)
    requires Acyclic(f) && p in Chain(f, v)
    ensures !Halts(f[p := PointerToVirtual(v)], v)
  {
    var f' := f[p := PointerToVirtual(v)];
    if Halts(f', v) {
      assert Ends(f', p, Links(f', v) + 1);
      LinkBackLoops(f, p, v, v, Links(f', v) + 1, Links(f', v));
    }
  }

  /** The store is acyclic before and after every operation that is applied. */
  ghost predicate StaysAcyclic(f: Files, virt: Addr, answers: seq<OpAnswer>)
    decreases |answers|
  {
    && Acyclic(f)
    && (answers != [] ==>
          var r := ApplyOp(f, virt, answers[0]);
          Acyclic(r.files) && (r.ok ==> StaysAcyclic(r.files, virt, answers[1..])))
  }

  lemma {:induction false} StaysAcyclicIff(f: Files, virt: Addr, answers: seq<OpAnswer>)
    requires Acyclic(f)
    ensures StaysAcyclic(f, virt, answers) <==> NoneClosesCycle(f, virt, answers)
    decreases |answers|
  {
    if answers != [] {
      ApplyOpKeepsAcyclicIff(f, virt, answers[0]);
      var r := ApplyOp(f, virt, answers[0]);
      if r.ok && !ClosesCycle(f, virt, answers[0]) {
        StaysAcyclicIff(r.files, virt, answers[1..]);
      }
    }
  }

  lemma {:induction false} ApplyOpsKeepsAcyclic(f: Files, virt: Addr, answers: seq<OpAnswer>, wrote: seq<Addr>)
    requires Acyclic(f) && NoneClosesCycle(f, virt, answers)
    ensures Acyclic(ApplyOps(f, virt, answers, wrote).files)
    decreases |answers|
  {
    if answers != [] {
      ApplyOpKeepsAcyclicIff(f, virt, answers[0]);
      var r := ApplyOp(f, virt, answers[0]);
      if r.ok {
        ApplyOpsKeepsAcyclic(r.files, virt, answers[1..], wrote + r.wrote);
      }
    }
  }

  /** The set/remove maps of all operations folded over the initial outputs. */
  function Fold(m: Outputs, answers: seq<OpAnswer>): Outputs
    decreases |answers|
  {
    if answers == [] then m else Fold(Merge(m, answers[0].Changes()), answers[1..])
  }

  /** No operation of the fold empties the map while the connector has no physical address. */
  predicate NoneLeavesStale(m: Outputs, answers: seq<OpAnswer>)
    decreases |answers|
  {
    answers != [] ==>
      !LeavesStale(m, answers[0]) && NoneLeavesStale(Merge(m, answers[0].Changes()), answers[1..])
  }

  /** The outputs read through the virtual address follow the fold after every operation
      that succeeds. */
  ghost predicate FollowsFold(f: Files, virt: Addr, m: Outputs, answers: seq<OpAnswer>)
    requires Acyclic(f) && NoneClosesCycle(f, virt, answers)
    decreases |answers|
  {
    if Contents(f, virt) != m then false
    else if answers == [] then true
    else
      ApplyOpKeepsAcyclicIff(f, virt, answers[0]);
      var r := ApplyOp(f, virt, answers[0]);
      r.ok ==> FollowsFold(r.files, virt, Merge(m, answers[0].Changes()), answers[1..])
  }

  /** After a plan succeeded, the store has followed the fold of all its operations
      exactly if none of them left a stale file. */
  lemma {:induction false} ApplyFoldsIff(f: Files, virt: Addr, answers: seq<OpAnswer>, wrote: seq<Addr>)
    requires Acyclic(f) && NoneClosesCycle(f, virt, answers)
    requires ApplyOps(f, virt, answers, wrote).ok
    ensures FollowsFold(f, virt, Contents(f, virt), answers) <==> NoneLeavesStale(Contents(f, virt), answers)
    decreases |answers|
  {
    if answers != [] {
      var r, m := ApplyOp(f, virt, answers[0]), Contents(f, virt);
      ApplyOpEffects(f, virt, answers[0]);
      ApplyOpKeepsAcyclicIff(f, virt, answers[0]);
      if !LeavesStale(m, answers[0]) {
        ApplyFoldsIff(r.files, virt, answers[1..], wrote + r.wrote);
      }
    }
  }

  lemma {:induction false} FoldedAtTheEnd(f: Files, virt: Addr, answers: seq<OpAnswer>, wrote: seq<Addr>)
    requires Acyclic(f) && NoneClosesCycle(f, virt, answers)
    requires ApplyOps(f, virt, answers, wrote).ok && NoneLeavesStale(Contents(f, virt), answers)
    ensures Acyclic(ApplyOps(f, virt, answers, wrote).files)
    ensures Contents(ApplyOps(f, virt, answers, wrote).files, virt) == Fold(Contents(f, virt), answers)
    decreases |answers|
  {
    if answers != [] {
      var r := ApplyOp(f, virt, answers[0]);
      ApplyOpEffects(f, virt, answers[0]);
      ApplyOpKeepsAcyclicIff(f, virt, answers[0]);
      FoldedAtTheEnd(r.files, virt, answers[1..], wrote + r.wrote);
    }
  }

  /** If the connector names the same physical address throughout, and the virtual and
      physical addresses agree to begin with or some operation reports changes, both
      read the same afterwards. */
  lemma {:induction false} PhysicalFollows(f: Files, virt: Addr, phy: Addr, answers: seq<OpAnswer>, wrote: seq<Addr>)
    requires Acyclic(f) && NoneClosesCycle(f, virt, answers)
    requires ApplyOps(f, virt, answers, wrote).ok
    requires forall i :: 0 <= i < |answers| ==> answers[i].after == Ok(Present(phy))
    requires Contents(f, phy) == Contents(f, virt) || exists i :: 0 <= i < |answers| && answers[i].Changes() != map[]
    ensures Acyclic(ApplyOps(f, virt, answers, wrote).files)
    ensures var f' := ApplyOps(f, virt, answers, wrote).files; Contents(f', phy) == Contents(f', virt)
    decreases |answers|
  {
    if answers != [] {
      var r := ApplyOp(f, virt, answers[0]);
      ApplyOpEffects(f, virt, answers[0]);
      ApplyOpKeepsAcyclicIff(f, virt, answers[0]);
      if answers[0].Changes() == map[] && Contents(f, phy) != Contents(f, virt) {
        var i :| 0 <= i < |answers| && answers[i].Changes() != map[];
        assert answers[1..][i - 1].Changes() != map[];
      }
      PhysicalFollows(r.files, virt, phy, answers[1..], wrote + r.wrote);
    }
  }

  /** The files of two stores differ at addresses of `wrote` only. */
  ghost predicate SameBut(f: Files, f': Files, wrote: seq<Addr>) {
    forall a: Addr :: a !in wrote ==> (a in f <==> a in f') && (a in f ==> f[a] == f'[a])
  }

  /** The file at the end of the chain of a link is replaced, and no link put there instead. */
  ghost predicate WritesBehindLink(f: Files, virt: Addr, s: OpAnswer)
    requires Halts(f, virt)
  {
    && IsLink(f, virt) && Changed(f, virt, s.Changes()) != f
    && !(s.Links(virt) && s.after.value.phy == Terminal(f, virt))
  }

  lemma NoChanges(f: Files, virt: Addr)
    requires Halts(f, virt)
    ensures Changed(f, virt, map[]) == f
  {
    ContentsAtTerminal(f, virt);
    assert Merge(Contents(f, virt), map[]) == Contents(f, virt);
  }

  lemma TerminalUnreported(f: Files, virt: Addr, s: OpAnswer)
    requires Acyclic(f) && ApplyOp(f, virt, s).ok && WritesBehindLink(f, virt, s)
    ensures !SameBut(f, ApplyOp(f, virt, s).files, ApplyOp(f, virt, s).wrote)
  {
    var t := Terminal(f, virt);
    TerminalOnChain(f, virt);
    NoChanges(f, virt);
    assert Changed(f, virt, s.Changes()) == f[t := OutputMap(Merge(Contents(f, virt), s.Changes()))];
    assert t !in ApplyOp(f, virt, s).wrote;
  }

  lemma NothingUnreported(f: Files, virt: Addr, s: OpAnswer)
    requires Acyclic(f) && ApplyOp(f, virt, s).ok && !WritesBehindLink(f, virt, s)
    ensures SameBut(f, ApplyOp(f, virt, s).files, ApplyOp(f, virt, s).wrote)
  {}

  /** Every file an operation changes is among those it reports, unless the virtual address
      is itself a link: then the file at the end of its chain changes unreported. */
  lemma ReportsChangesIff(f: Files, virt: Addr, s: OpAnswer)
    requires Acyclic(f) && ApplyOp(f, virt, s).ok
    ensures SameBut(f, ApplyOp(f, virt, s).files, ApplyOp(f, virt, s).wrote) <==> !WritesBehindLink(f, virt, s)
  {
    if WritesBehindLink(f, virt, s) {
      TerminalUnreported(f, virt, s);
    } else {
      NothingUnreported(f, virt, s);
    }
  }

  // -------------------------------------------------------------- renaming

  /** What one connector of the prefix answers during a rename: whether it could be
      spawned, whether it claims the old address as a resource, and its mapping. */
  datatype RenameAnswer = RenameAnswer(spawned: bool, claims: Result<bool>, mapping: Result<VirtToPhy>) {
    predicate Claims() {
      spawned && claims == Ok(true)
    }
  }

  /** The output files and the resource files of the prefix. */
  datatype Disk = Disk(files: Files, bodies: map<Addr, string>)

  datatype Renamed = Renamed(disk: Disk, ok: bool)

  ghost function RenameStep(d: Disk, oldAddr: Addr, newAddr: Addr, c: RenameAnswer): Renamed
    requires Acyclic(d.files)
  {
    if !c.spawned || c.claims.Err? then Renamed(d, false)
    else if !c.claims.value then Renamed(d, true)
    else if c.mapping.Err? || !c.mapping.value.Present? || ReadRecurse(d.files, oldAddr).None? then Renamed(d, false)
    else
      var files := Published(d.files, newAddr, c.mapping.value.phy, Contents(d.files, oldAddr));
      if oldAddr in d.bodies
      then Renamed(Disk(files, d.bodies[newAddr := d.bodies[oldAddr]] - {oldAddr}), true)
      else Renamed(Disk(files, d.bodies), false)
  }

  ghost function RenameSteps(d: Disk, oldAddr: Addr, newAddr: Addr, cs: seq<RenameAnswer>): (r: Renamed)
    requires Acyclic(d.files)
    ensures Acyclic(r.disk.files)
    decreases |cs|
  {
    if cs == [] then Renamed(d, true)
    else
      var r := RenameStep(d, oldAddr, newAddr, cs[0]);
      RenameStepKeepsAcyclic(d, oldAddr, newAddr, cs[0]);
      if r.ok then RenameSteps(r.disk, oldAddr, newAddr, cs[1..]) else r
  }

  lemma RenameStepKeepsAcyclic(d: Disk, oldAddr: Addr, newAddr: Addr, c: RenameAnswer)
    requires Acyclic(d.files)
    ensures Acyclic(RenameStep(d, oldAddr, newAddr, c).disk.files)
  {
    if c.mapping.Ok? && c.mapping.value.Present? {
      PublishedKeepsAcyclic(d.files, newAddr, c.mapping.value.phy, Contents(d.files, oldAddr));
    }
  }

  /** A rename that succeeds was done by at most one connector: the first one to do it
      removes the file a second one would have to copy. */
  lemma {:induction false} RenameDoneOnce(d: Disk, oldAddr: Addr, newAddr: Addr, cs: seq<RenameAnswer>, i: nat, j: nat)
    requires Acyclic(d.files) && RenameSteps(d, oldAddr, newAddr, cs).ok
    requires i < j < |cs|
    ensures !(cs[i].Claims() && cs[j].Claims())
    decreases |cs|
  {
    var r := RenameStep(d, oldAddr, newAddr, cs[0]);
    RenameStepKeepsAcyclic(d, oldAddr, newAddr, cs[0]);
    if i == 0 {
      if cs[0].Claims() && cs[j].Claims() {
        RenameWithoutFile(r.disk, oldAddr, newAddr, cs[1..], j - 1);
      }
    } else {
      RenameDoneOnce(r.disk, oldAddr, newAddr, cs[1..], i - 1, j - 1);
    }
  }

  lemma {:induction false} RenameWithoutFile(d: Disk, oldAddr: Addr, newAddr: Addr, cs: seq<RenameAnswer>, j: nat)
    requires Acyclic(d.files) && oldAddr !in d.bodies
    requires j < |cs| && cs[j].Claims()
    ensures !RenameSteps(d, oldAddr, newAddr, cs).ok
    decreases |cs|
  {
    if j > 0 {
      RenameStepKeepsAcyclic(d, oldAddr, newAddr, cs[0]);
      RenameWithoutFile(RenameStep(d, oldAddr, newAddr, cs[0]).disk, oldAddr, newAddr, cs[1..], j - 1);
    }
  }

  /** A successful rename moves the resource file, except onto itself: then the file is
      copied over itself and removed. */
  lemma RenameMovesBodyIff(d: Disk, oldAddr: Addr, newAddr: Addr, c: RenameAnswer)
    requires Acyclic(d.files) && c.Claims() && RenameStep(d, oldAddr, newAddr, c).ok
    ensures var d' := RenameStep(d, oldAddr, newAddr, c).disk;
      && oldAddr !in d'.bodies
      && (newAddr in d'.bodies && d'.bodies[newAddr] == d.bodies[oldAddr] <==> oldAddr != newAddr)
      && (forall a :: a != oldAddr && a != newAddr ==> (a in d'.bodies <==> a in d.bodies) && (a in d.bodies ==> d'.bodies[a] == d.bodies[a]))
  {}

  /** A successful rename leaves an output file at the old virtual address, and every output
      read through it readable: the file is the one it was unless the old address is the
      physical one, which becomes a link, or the new one, which is written. */
  lemma RenameLeavesOldOutputs(d: Disk, oldAddr: Addr, newAddr: Addr, c: RenameAnswer)
    requires Acyclic(d.files) && c.Claims() && RenameStep(d, oldAddr, newAddr, c).ok
    ensures var f, f' := d.files, RenameStep(d, oldAddr, newAddr, c).disk.files;
      && oldAddr in f && oldAddr in f'
      && f'[oldAddr] == (if oldAddr == newAddr then OutputMap(Contents(f, oldAddr))
                         else if oldAddr == c.mapping.value.phy then PointerToVirtual(newAddr)
                         else f[oldAddr])
      && Halts(f', oldAddr) && Contents(f', oldAddr) == Contents(f, oldAddr)
  {
    PublishedEffects(d.files, newAddr, c.mapping.value.phy, Contents(d.files, oldAddr), oldAddr);
  }

  // -------------------------------------------------------------- whole runs

  /** One thing the tool does to the output store. */
  /** What a connector and the file say about one object while the server pulls state:
      skipped (no address, waiting for outputs, no resource or no file), gone, or found, with
      a definition that may match the file. */
  datatype Remote = Skipped | Gone | Found(body: string, same: bool, outputs: Option<Outputs>)

  /** `pull_state` for one object. */
  function Pulled(d: Disk, virt: Addr, phy: Addr, remote: Remote, delete: bool): Disk {
    match remote
    case Skipped => d
    case Gone => if delete then Disk(d.files - {phy} - {virt}, d.bodies - {virt}) else d
    case Found(body, same, outputs) =>
      Disk(if outputs.Some? && outputs.value != map[] then Published(d.files, virt, phy, outputs.value) else d.files,
           if same then d.bodies else d.bodies[virt := body])
  }

  /** Pulling state cannot create a cycle.  What was found is read through both addresses,
      what was deleted through neither, and nobody else reads anything new unless through them. */
  lemma PulledEffects(d: Disk, virt: Addr, phy: Addr, remote: Remote, delete: bool, b: Addr)
    requires Halts(d.files, b)
    ensures var f, f' := d.files, Pulled(d, virt, phy, remote, delete).files;
      var through := virt in Chain(f, b) || phy in Chain(f, b);
      && Halts(f', b)
      && (remote.Gone? && delete ==> Contents(f', b) == if through then map[] else Contents(f, b))
      && (remote.Found? && remote.outputs.Some? && remote.outputs.value != map[] ==>
            Contents(f', b) == if through then remote.outputs.value else Contents(f, b))
  {
    var f := d.files;
    match remote
    case Gone =>
      CutKeepsChains(f, f - {phy}, phy, b);
      ChainOfCut(f, f - {phy}, phy, virt, b);
      CutKeepsChains(f - {phy}, f - {phy} - {virt}, virt, b);
      ContentsAtTerminal(f - {phy} - {virt}, b);
      ContentsAtTerminal(f - {phy}, b);
    case Found(_, _, outputs) =>
      if outputs.Some? {
        PublishedEffects(f, virt, phy, outputs.value, b);
      }
    case Skipped =>
  }

  lemma PulledKeepsAcyclic(d: Disk, virt: Addr, phy: Addr, remote: Remote, delete: bool)
    requires Acyclic(d.files)
    ensures Acyclic(Pulled(d, virt, phy, remote, delete).files)
  {
    forall b: Addr ensures Halts(Pulled(d, virt, phy, remote, delete).files, b) {
      PulledEffects(d, virt, phy, remote, delete, b);
    }
  }

  datatype Action =
    | Import(phy: Addr, virt: Addr, suggested: Option<Addr>, outputs: Option<Outputs>)
    | Rename(oldAddr: Addr, newAddr: Addr, connectors: seq<RenameAnswer>, bodies: map<Addr, string>)
    | Apply(virt: Addr, answers: seq<OpAnswer>)
    | Pull(virt: Addr, phy: Addr, remote: Remote, delete: bool, bodies: map<Addr, string>)

  /** Where an import writes: the connector's own suggestion only replaces an address
      that is still the physical one. */
  function ImportAddress(phy: Addr, virt: Addr, suggested: Option<Addr>): Addr {
    if phy == virt && suggested.Some? then suggested.value else virt
  }

  function Imported(f: Files, phy: Addr, virt: Addr, suggested: Option<Addr>, outputs: Option<Outputs>): Files {
    if outputs.Some? && outputs.value != map[]
    then Published(f, ImportAddress(phy, virt, suggested), phy, outputs.value)
    else f
  }

  /** The one demand on a run: no operation closes a cycle in the store it meets. */
  ghost predicate Allowed(f: Files, a: Action)
    requires Acyclic(f)
  {
    a.Apply? ==> NoneClosesCycle(f, a.virt, a.answers)
  }

  ghost function Act(f: Files, a: Action): Files
    requires Acyclic(f) && Allowed(f, a)
  {
    match a
    case Import(phy, virt, suggested, outputs) => Imported(f, phy, virt, suggested, outputs)
    case Rename(oldAddr, newAddr, connectors, bodies) => RenameSteps(Disk(f, bodies), oldAddr, newAddr, connectors).disk.files
    case Apply(virt, answers) => ApplyOps(f, virt, answers, []).files
    case Pull(virt, phy, remote, delete, bodies) => Pulled(Disk(f, bodies), virt, phy, remote, delete).files
  }

  lemma ActKeepsAcyclic(f: Files, a: Action)
    requires Acyclic(f) && Allowed(f, a)
    ensures Acyclic(Act(f, a))
  {
    match a
    case Import(phy, virt, suggested, outputs) =>
      if outputs.Some? {
        PublishedKeepsAcyclic(f, ImportAddress(phy, virt, suggested), phy, outputs.value);
      }
    case Rename(_, _, _, _) =>
    case Apply(virt, answers) => ApplyOpsKeepsAcyclic(f, virt, answers, []);
    case Pull(virt, phy, remote, delete, bodies) => PulledKeepsAcyclic(Disk(f, bodies), virt, phy, remote, delete);
  }

  /** A run whose every action is allowed in the store it meets. */
  ghost predicate AllowedRun(f: Files, run: seq<Action>)
    requires Acyclic(f)
    decreases |run|
  {
    if run == [] then true
    else if !Allowed(f, run[0]) then false
    else ActKeepsAcyclic(f, run[0]); AllowedRun(Act(f, run[0]), run[1..])
  }

  ghost function AfterRun(f: Files, run: seq<Action>): Files
    requires Acyclic(f) && AllowedRun(f, run)
    decreases |run|
  {
    if run == [] then f
    else ActKeepsAcyclic(f, run[0]); AfterRun(Act(f, run[0]), run[1..])
  }

  lemma EmptyStoreIsAcyclic()
    ensures Acyclic(map[])
  {
    var f: Files := map[];
    forall a: Addr ensures Halts(f, a) {
      assert Ends(f, a, 0);
    }
  }

  /** The store stays acyclic, for an apply after each of its operations. */
  ghost predicate KeepsAllAcyclic(f: Files, a: Action)
    requires Acyclic(f)
  {
    match a
    case Import(phy, virt, suggested, outputs) => Acyclic(Imported(f, phy, virt, suggested, outputs))
    case Rename(oldAddr, newAddr, connectors, bodies) => Acyclic(RenameSteps(Disk(f, bodies), oldAddr, newAddr, connectors).disk.files)
    case Apply(virt, answers) => StaysAcyclic(f, virt, answers)
    case Pull(virt, phy, remote, delete, bodies) => Acyclic(Pulled(Disk(f, bodies), virt, phy, remote, delete).files)
  }

  lemma AllowedIff(f: Files, a: Action)
    requires Acyclic(f)
    ensures KeepsAllAcyclic(f, a) <==> Allowed(f, a)
  {
    match a
    case Import(phy, virt, suggested, outputs) =>
      if outputs.Some? {
        PublishedKeepsAcyclic(f, ImportAddress(phy, virt, suggested), phy, outputs.value);
      }
    case Rename(_, _, _, _) =>
    case Apply(virt, answers) => StaysAcyclicIff(f, virt, answers);
    case Pull(virt, phy, remote, delete, bodies) => PulledKeepsAcyclic(Disk(f, bodies), virt, phy, remote, delete);
  }

  /** The store stays acyclic through all actions of the run. */
  ghost predicate RunStaysAcyclic(f: Files, run: seq<Action>)
    requires Acyclic(f)
    decreases |run|
  {
    if run == [] then true
    else if !KeepsAllAcyclic(f, run[0]) then false
    else
      AllowedIff(f, run[0]);
      ActKeepsAcyclic(f, run[0]);
      RunStaysAcyclic(Act(f, run[0]), run[1..])
  }

  /** Whatever imports, renames, applies and pulls are run in whatever order: every reader keeps
      terminating at every address, all the way, if and only if no operation closes a cycle. */
  lemma {:induction false} RunsStayAcyclicIff(f: Files, run: seq<Action>)
    requires Acyclic(f)
    ensures RunStaysAcyclic(f, run) <==> AllowedRun(f, run)
    ensures AllowedRun(f, run) ==> Acyclic(AfterRun(f, run))
    decreases |run|
  {
    if run != [] {
      AllowedIff(f, run[0]);
      if Allowed(f, run[0]) {
        ActKeepsAcyclic(f, run[0]);
        RunsStayAcyclicIff(Act(f, run[0]), run[1..]);
      }
    }
  }

  // ------------------------------------------------------------- the store

  /** The loop of `apply_output_map`: the order in which changes are visited does not matter. */
  method MergeInto(before: Outputs, changes: Changes) returns (entries: Outputs)
    ensures entries == Merge(before, changes)
  {
    entries := before;
    var rest := changes;
    while rest != map[]
      invariant Merge(entries, rest) == Merge(before, changes)
      decreases rest.Keys
    {
      var key :| key in rest;
      MergeOne(entries, rest, key);
      match rest[key] {
        case Some(value) => entries := entries[key := value];
        case None => entries := entries - {key};
      }
      rest := rest - {key};
    }
    assert entries == Merge(entries, map[]);
  }

  lemma MergeOne(m: Outputs, changes: Changes, key: string)
    requires key in changes
    ensures Merge(if changes[key].Some? then m[key := changes[key].value] else m - {key}, changes - {key}) == Merge(m, changes)
  {}

  class Store {
    var files: Files
    var bodies: map<Addr, string>

    constructor ()
      ensures files == map[] && bodies == map[]
      ensures Acyclic(files)
    {
      files, bodies := map[], map[];
      new;
      EmptyStoreIsAcyclic();
    }

    method Write(file: OutputFile, addr: Addr) returns (path: Addr)
      modifies this`files
      ensures files == old(files)[addr := file] && path == addr
    {
      if addr in files {
        files := files - {addr};
      }
      files := files[addr := file];
      path := addr;
    }

    /** Overwrites the file at the end of the chain, creating it if the chain dangles. */
    method WriteRecurse(file: OutputFile, addr: Addr)
      requires Halts(files, addr)
      modifies this`files
      ensures files == old(files)[Terminal(old(files), addr) := file]
      decreases Links(files, addr)
    {
      if addr in files {
        match files[addr]
        case PointerToVirtual(virt) =>
          LinksNext(files, addr);
          WriteRecurse(file, virt);
        case OutputMap(_) =>
          files := files[addr := file];
      } else {
        files := files[addr := file];
      }
    }

    method ApplyOutputMap(addr: Addr, changes: Changes) returns (path: Option<Addr>)
      requires Halts(files, addr)
      modifies this`files
      ensures files == Changed(old(files), addr, changes)
      ensures path == if Merge(Contents(old(files), addr), changes) == map[] then None else Some(addr)
    {
      var entries: Outputs := map[];
      match ReadRecurse(files, addr) {
        case None =>
        case Some(OutputMap(es)) => entries := es;
      }
      entries := MergeInto(entries, changes);
      if entries == map[] {
        path := None;
      } else {
        WriteRecurse(OutputMap(entries), addr);
        path := Some(addr);
      }
    }

    method WriteLink(phy: Addr, virt: Addr) returns (path: Addr)
      modifies this`files
      ensures files == old(files)[phy := PointerToVirtual(virt)] && path == phy
    {
      path := Write(PointerToVirtual(virt), phy);
    }

    method Delete(addr: Addr) returns (path: Option<Addr>)
      modifies this`files
      ensures files == old(files) - {addr}
      ensures path == if addr in old(files) then Some(addr) else None
    {
      if addr in files {
        files := files - {addr};
        path := Some(addr);
      } else {
        path := None;
      }
    }

    /** `GetResourceResponse::write`: the fetched resource, its outputs, and a link. */
    method ImportResource(body: string, suggested: Option<Addr>, outputs: Option<Outputs>, phy: Addr, virt: Addr)
      returns (wroteBody: Addr, wrote: seq<Addr>)
      requires Acyclic(files)
      modifies this
      ensures Acyclic(files) && files == Imported(old(files), phy, virt, suggested, outputs)
      ensures wroteBody == ImportAddress(phy, virt, suggested)
      ensures bodies == old(bodies)[wroteBody := body]
      ensures wrote == if outputs.None? || outputs.value == map[] then []
                       else if wroteBody == phy then [wroteBody] else [wroteBody, phy]
      ensures outputs.Some? && outputs.value != map[] ==>
                Resolve(files, phy) == Some(wroteBody) && Contents(files, wroteBody) == Contents(files, phy) == outputs.value
    {
      var target := if phy == virt && suggested.Some? then suggested.value else virt;
      wroteBody, wrote := target, [];
      bodies := bodies[target := body];
      if outputs.Some? && outputs.value != map[] {
        PublishedKeepsAcyclic(files, target, phy, outputs.value);
        PublishedEffects(files, target, phy, outputs.value, phy);
        var path := Write(OutputMap(outputs.value), target);
        wrote := wrote + [path];
        if target != phy {
          path := WriteLink(phy, target);
          wrote := wrote + [path];
        }
      }
    }

    /** The body of the loop over objects in `pull_state`; whether something was imported, and
        whether something was deleted. */
    method PullObject(virt: Addr, phy: Addr, remote: Remote, delete: bool) returns (imported: bool, deleted: bool)
      modifies this
      ensures Disk(files, bodies) == Pulled(old(Disk(files, bodies)), virt, phy, remote, delete)
      ensures Acyclic(old(files)) ==> Acyclic(files)
      ensures imported <==> remote.Found? && (!remote.same || (remote.outputs.Some? && remote.outputs.value != map[]))
      ensures deleted <==> remote.Gone? && delete && virt in old(bodies)
    {
      if Acyclic(files) {
        PulledKeepsAcyclic(Disk(files, bodies), virt, phy, remote, delete);
      }
      imported, deleted := false, false;
      match remote {
        case Skipped =>
        case Found(body, same, outputs) =>
          if !same {
            imported := true;
            bodies := bodies[virt := body];
          }
          if outputs.Some? && outputs.value != map[] {
            imported := true;
            var _ := Write(OutputMap(outputs.value), virt);
            if virt != phy {
              var _ := WriteLink(phy, virt);
            }
          }
        case Gone =>
          if delete {
            if virt in bodies {
              deleted := true;
              bodies := bodies - {virt};
            }
            var _ := Delete(phy);
            var _ := Delete(virt);
          }
      }
    }

    method RenameResource(oldAddr: Addr, newAddr: Addr, connectors: seq<RenameAnswer>) returns (ok: bool)
      requires Acyclic(files)
      modifies this
      ensures Acyclic(files)
      ensures RenameSteps(old(Disk(files, bodies)), oldAddr, newAddr, connectors) == Renamed(Disk(files, bodies), ok)
    {
      for i := 0 to |connectors|
        invariant Acyclic(files)
        invariant RenameSteps(old(Disk(files, bodies)), oldAddr, newAddr, connectors)
               == RenameSteps(Disk(files, bodies), oldAddr, newAddr, connectors[i..])
      {
        var c := connectors[i];
        ghost var d := Disk(files, bodies);
        RenameStepKeepsAcyclic(d, oldAddr, newAddr, c);
        assert connectors[i..][1..] == connectors[i + 1..];
        if !c.spawned || c.claims.Err? {
          return false;
        }
        if c.claims.value {
          if c.mapping.Err? || !c.mapping.value.Present? {
            return false;
          }
          var phy := c.mapping.value.phy;
          var found := ReadRecurse(files, oldAddr);
          if found.None? {
            return false;
          }
          var _ := WriteLink(phy, newAddr);
          var _ := Write(found.value, newAddr);
          assert files == Published(d.files, newAddr, phy, Contents(d.files, oldAddr));
          if oldAddr !in bodies {
            return false;
          }
          bodies := bodies[newAddr := bodies[oldAddr]];
          bodies := bodies - {oldAddr};
        }
      }
      ok := true;
    }

    /** `apply_connector`. */
    method ApplyConnector(virt: Addr, answers: seq<OpAnswer>) returns (ok: bool, wrote: seq<Addr>)
      requires Returns(files, virt, answers)
      modifies this`files
      ensures var r := ApplyOps(old(files), virt, answers, []); files == r.files && ok == r.ok && (ok ==> wrote == r.wrote)
      ensures Acyclic(old(files)) && NoneClosesCycle(old(files), virt, answers) ==> Acyclic(files)
    {
      if Acyclic(files) && NoneClosesCycle(files, virt, answers) {
        ApplyOpsKeepsAcyclic(files, virt, answers, []);
      }
      ok, wrote := true, [];
      for i := 0 to |answers|
        invariant Returns(files, virt, answers[i..])
        invariant ApplyOps(old(files), virt, answers, []) == ApplyOps(files, virt, answers[i..], wrote)
      {
        assert answers[i..][1..] == answers[i + 1..];
        var done: seq<Addr>;
        ok, done := ApplyOne(virt, answers[i]);
        if !ok {
          return;
        }
        wrote := wrote + done;
      }
    }

    /** The body of the loop in `apply_connector`. */
    method ApplyOne(virt: Addr, s: OpAnswer) returns (ok: bool, wrote: seq<Addr>)
      requires s.Touches() ==> Halts(files, virt)
      modifies this`files
      ensures var r := ApplyOp(old(files), virt, s); files == r.files && ok == r.ok && (ok ==> wrote == r.wrote)
    {
      wrote := [];
      if s.before.Err? || s.before.value.Deferred? || s.exec.Err? {
        return false, [];
      }
      if s.exec.value.Some? && s.exec.value.value != map[] {
        var changed := ApplyOutputMap(virt, s.exec.value.value);
        if s.after.Err? {
          return false, [];
        }
        if changed.Some? {
          if s.after.value.Present? && s.after.value.phy != virt {
            var path := WriteLink(s.after.value.phy, virt);
            wrote := wrote + [path];
          }
          wrote := wrote + [changed.value];
        } else if s.after.value.Present? {
          var path := Delete(virt);
          if path.Some? {
            wrote := wrote + [path.value];
          }
          if s.after.value.phy != virt {
            path := Delete(s.after.value.phy);
            if path.Some? {
              wrote := wrote + [path.value];
            }
          }
        }
      }
      ok := true;
    }
  }
}
