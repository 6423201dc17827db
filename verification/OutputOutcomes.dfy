/** When the writers of the output store succeed, what a failure leaves behind, and what they
    report and move. */
module OutputOutcomes {
  import opened Collections
  import opened Wrappers
  import opened LinkStore
  import opened OutputStore

  // ------------------------------------------------- executing operations

  /** The connector knows the address and executes the operation, and if that changed outputs
      it can also say where the resource now lives. */
  predicate Goes(s: OpAnswer) {
    s.Runs() && (s.Changes() != map[] ==> s.after.Ok?)
  }

  /** A plan succeeds exactly if all its operations go. */
  lemma {:induction false} OpsSucceedIff(f: Files, virt: Addr, answers: seq<OpAnswer>, wrote: seq<Addr>)
    requires Returns(f, virt, answers)
    ensures ApplyOps(f, virt, answers, wrote).ok <==> forall i :: 0 <= i < |answers| ==> Goes(answers[i])
    decreases |answers|
  {
    if answers != [] {
      var r := ApplyOp(f, virt, answers[0]);
      if r.ok {
        OpsSucceedIff(r.files, virt, answers[1..], wrote + r.wrote);
        assert forall i :: 0 < i < |answers| ==> answers[i] == answers[1..][i - 1];
      }
    }
  }

  /** A plan that fails leaves what the operations before the first failure left, and none
      after it is executed.  If that operation itself was executed, its outputs are merged. */
  lemma {:induction false} FailureLeaves(f: Files, virt: Addr, answers: seq<OpAnswer>, i: nat, wrote: seq<Addr>)
    requires Returns(f, virt, answers) && i < |answers|
    requires (forall j :: 0 <= j < i ==> Goes(answers[j])) && !Goes(answers[i])
    ensures var before := ApplyOps(f, virt, answers[..i], wrote).files;
      && (answers[i].Touches() ==> Halts(before, virt))
      && !ApplyOps(f, virt, answers, wrote).ok
      && ApplyOps(f, virt, answers, wrote).files
         == if answers[i].Touches() then Changed(before, virt, answers[i].Changes()) else before
    decreases |answers|
  {
    var r := ApplyOp(f, virt, answers[0]);
    if i > 0 {
      assert answers[..i][1..] == answers[1..][..i - 1] && answers[..i][0] == answers[0];
      assert forall j :: 0 < j < |answers| ==> answers[j] == answers[1..][j - 1];
      assert Goes(answers[0]);
      FailureLeaves(r.files, virt, answers[1..], i - 1, wrote + r.wrote);
    }
  }

  /** The files an operation reports: those it leaves written, if outputs remain, and those
      that were there and are gone, if none do. */
  lemma ReportsWhat(f: Files, virt: Addr, s: OpAnswer, a: Addr)
    requires Halts(f, virt) && s.Touches() && Goes(s)
    ensures var r := ApplyOp(f, virt, s);
      var own := a == virt || (s.Links(virt) && a == s.after.value.phy);
      a in r.wrote <==>
        && own
        && if Merge(Contents(f, virt), s.Changes()) != map[] then true else s.after.value.Present? && a in f
    ensures var r := ApplyOp(f, virt, s);
      Merge(Contents(f, virt), s.Changes()) == map[] && a in r.wrote ==> a !in r.files
  {}

  lemma ReportsNothing(f: Files, virt: Addr, s: OpAnswer)
    requires s.Touches() ==> Halts(f, virt)
    requires !s.Touches() || !Goes(s)
    ensures ApplyOp(f, virt, s).wrote == []
  {}

  /** A plan reports what its operations report, one after the other; each is applied to the
      store the ones before left, and none after one that does not go. */
  lemma {:induction false} OpsAppend(f: Files, virt: Addr, answers: seq<OpAnswer>, s: OpAnswer, wrote: seq<Addr>)
    requires Returns(f, virt, answers + [s])
    ensures var r := ApplyOps(f, virt, answers, wrote);
      && (!r.ok ==> ApplyOps(f, virt, answers + [s], wrote) == r)
      && (r.ok ==> (s.Touches() ==> Halts(r.files, virt)))
      && (r.ok ==> var t := ApplyOp(r.files, virt, s);
            ApplyOps(f, virt, answers + [s], wrote) == Applied(t.files, t.ok, r.wrote + t.wrote))
    decreases |answers|
  {
    var all := answers + [s];
    if answers == [] {
      assert all == [s] && all[1..] == [];
    } else {
      assert all[0] == answers[0] && all[1..] == answers[1..] + [s];
      var r := ApplyOp(f, virt, answers[0]);
      if r.ok {
        OpsAppend(r.files, virt, answers[1..], s, wrote + r.wrote);
      }
    }
  }

  /** An empty plan does nothing. */
  lemma NoOps(f: Files, virt: Addr, wrote: seq<Addr>)
    ensures ApplyOps(f, virt, [], wrote) == Applied(f, true, wrote)
  {}

  /** A plan that would chase pointers without end does not count as one that succeeds. */
  lemma {:induction false} OnlyReturningSucceed(f: Files, virt: Addr, answers: seq<OpAnswer>, wrote: seq<Addr>)
    ensures ApplyOps(f, virt, answers, wrote).ok ==> Returns(f, virt, answers)
    decreases |answers|
  {
    if answers != [] && (answers[0].Touches() ==> Halts(f, virt)) {
      var r := ApplyOp(f, virt, answers[0]);
      if r.ok {
        OnlyReturningSucceed(r.files, virt, answers[1..], wrote + r.wrote);
      }
    }
  }

  // -------------------------------------------------------------- renaming

  /** A connector that fails to rename leaves all resource files, and the output files, too,
      unless all that was missing is the resource file: then the outputs have moved already. */
  lemma RenameFailureLeaves(d: Disk, oldAddr: Addr, newAddr: Addr, c: RenameAnswer)
    requires Acyclic(d.files) && !RenameStep(d, oldAddr, newAddr, c).ok
    ensures var d' := RenameStep(d, oldAddr, newAddr, c).disk;
      var moved := c.Claims() && c.mapping.Ok? && c.mapping.value.Present? && Resolve(d.files, oldAddr).Some?;
      && d'.bodies == d.bodies
      && d'.files == (if moved then Published(d.files, newAddr, c.mapping.value.phy, Contents(d.files, oldAddr)) else d.files)
      && (moved ==> oldAddr !in d.bodies)
  {
    ReadersAgree(d.files, oldAddr, "");
  }

  predicate AllAnswer(cs: seq<RenameAnswer>) {
    forall i :: 0 <= i < |cs| ==> cs[i].spawned && cs[i].claims.Ok?
  }

  /** A connector can do the rename. */
  ghost predicate CanRename(d: Disk, oldAddr: Addr, c: RenameAnswer)
    requires Acyclic(d.files)
  {
    && c.mapping.Ok? && c.mapping.value.Present?
    && Resolve(d.files, oldAddr).Some?
    && oldAddr in d.bodies
  }

  lemma {:induction false} NobodyRenames(d: Disk, oldAddr: Addr, newAddr: Addr, cs: seq<RenameAnswer>)
    requires Acyclic(d.files) && forall i :: 0 <= i < |cs| ==> !cs[i].Claims()
    ensures RenameSteps(d, oldAddr, newAddr, cs).disk == d
    ensures RenameSteps(d, oldAddr, newAddr, cs).ok <==> AllAnswer(cs)
    decreases |cs|
  {
    if cs != [] {
      assert forall i :: 0 < i < |cs| ==> cs[i] == cs[1..][i - 1];
      var r := RenameStep(d, oldAddr, newAddr, cs[0]);
      if r.ok {
        NobodyRenames(d, oldAddr, newAddr, cs[1..]);
      }
    }
  }

  /** With a connector that claims the address, a rename succeeds exactly if every connector
      answers, no other claims it, and this one can do it; the disk is then as this one left it. */
  lemma {:induction false} RenameSucceedsIff(d: Disk, oldAddr: Addr, newAddr: Addr, cs: seq<RenameAnswer>, i: nat)
    requires Acyclic(d.files) && i < |cs| && cs[i].Claims() && forall j :: 0 <= j < i ==> !cs[j].Claims()
    ensures RenameSteps(d, oldAddr, newAddr, cs).ok <==>
              AllAnswer(cs) && CanRename(d, oldAddr, cs[i]) && forall j :: i < j < |cs| ==> !cs[j].Claims()
    ensures RenameSteps(d, oldAddr, newAddr, cs).ok ==>
              RenameSteps(d, oldAddr, newAddr, cs).disk == RenameStep(d, oldAddr, newAddr, cs[i]).disk
    decreases |cs|
  {
    assert forall j :: 0 < j < |cs| ==> cs[j] == cs[1..][j - 1];
    var r := RenameStep(d, oldAddr, newAddr, cs[0]);
    ReadersAgree(d.files, oldAddr, "");
    if i > 0 {
      if r.ok {
        RenameSucceedsIff(d, oldAddr, newAddr, cs[1..], i - 1);
      }
    } else if r.ok {
      RenameStepKeepsAcyclic(d, oldAddr, newAddr, cs[0]);
      if j :| 0 < j < |cs| && cs[j].Claims() {
        RenameWithoutFile(r.disk, oldAddr, newAddr, cs[1..], j - 1);
      } else {
        NobodyRenames(r.disk, oldAddr, newAddr, cs[1..]);
      }
    }
  }

  // ------------------------------------------------- importing and pulling

  /** A first import of a resource goes to the address the connector suggests, and a second
      one, which starts from the virtual address that the first one linked, stays there
      whatever is suggested then. */
  lemma ImportStays(f: Files, phy: Addr, first: Addr, later: Option<Addr>, m: Outputs, n: Outputs)
    requires Acyclic(f) && m != map[] && n != map[] && first != phy
    ensures var f1 := Imported(f, phy, phy, Some(first), Some(m));
      && Acyclic(f1) && Resolve(f1, phy) == Some(first)
      && var f2 := Imported(f1, phy, first, later, Some(n));
      Acyclic(f2) && Resolve(f2, phy) == Some(first) && Contents(f2, first) == n
  {
    PublishedKeepsAcyclic(f, first, phy, m);
    PublishedEffects(f, first, phy, m, phy);
    var f1 := Imported(f, phy, phy, Some(first), Some(m));
    PublishedKeepsAcyclic(f1, first, phy, n);
    PublishedEffects(f1, first, phy, n, phy);
  }

  /** Without a suggestion, or without outputs: the resource stays where it was asked for, and
      no outputs change. */
  lemma ImportWithout(f: Files, phy: Addr, virt: Addr, suggested: Option<Addr>, outputs: Option<Outputs>)
    ensures suggested.None? ==> ImportAddress(phy, virt, suggested) == virt
    ensures outputs == None || outputs == Some(map[]) ==> Imported(f, phy, virt, suggested, outputs) == f
  {}

  /** What pulling does to the resource files: a definition that differs replaces the file, a
      resource that is gone takes it along if deleting was asked for; otherwise it stays, and
      so do all others. */
  lemma PulledBodies(d: Disk, virt: Addr, phy: Addr, remote: Remote, delete: bool, a: Addr)
    ensures var bodies := Pulled(d, virt, phy, remote, delete).bodies;
      && (a != virt ==> (a in bodies <==> a in d.bodies) && (a in d.bodies ==> bodies[a] == d.bodies[a]))
      && (remote.Found? && !remote.same ==> virt in bodies && bodies[virt] == remote.body)
      && (remote.Gone? && delete ==> virt !in bodies)
      && (remote.Skipped? || (remote.Gone? && !delete) || (remote.Found? && remote.same) ==> bodies == d.bodies)
  {}

  /** Pulling twice is pulling once. */
  lemma PulledTwice(d: Disk, virt: Addr, phy: Addr, remote: Remote, delete: bool)
    ensures var d' := Pulled(d, virt, phy, remote, delete); Pulled(d', virt, phy, remote, delete) == d'
  {}
}
