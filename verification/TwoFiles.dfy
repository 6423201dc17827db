/** Rounds over two staged files, one text that refers to an output of the other. */
module TwoFiles {
  import opened Wrappers
  import opened Template
  import opened Deferral

  lemma ExpandOne(get: Readable, r: ReadOutput)
    requires r.WellFormed()
    ensures Expand(get, r.IntoString()).missing == if get(r).None? then {r} else {}
  {
    MatchAtIff(r.IntoString(), r);
    assert r.IntoString()[|r.IntoString()|..] == "";
    ExpandSplitsReferences(get, r.IntoString());
    assert ReadOutputs(r.IntoString()) == [r];
  }

  lemma PlanText<W>(t: Tool<W>, w: W, p: Path, r: ReadOutput)
    requires t.mapping(w, p) == Ok(NotPresent) && r.WellFormed() && t.body(p) == Text(r.IntoString())
    ensures PlanConnector(t, w, p) ==
            if t.readable(w)(r).None? then Ok(PlanReport(p, 0, {r})) else Planned(p, t.ops(w, p, Desired(t, w, p)))
  {
    ExpandOne(t.readable(w), r);
  }

  lemma PlanBinary<W>(t: Tool<W>, w: W, p: Path)
    requires t.mapping(w, p) == Ok(NotPresent) && t.body(p).Binary?
    ensures PlanConnector(t, w, p) == Planned(p, t.ops(w, p, Desired(t, w, p)))
  {}

  lemma OneStaged<W>(t: Tool<W>, w: W, p: Path)
    ensures WithOps(t, w, [p]) == OneWithOps(t, w, p) && WithMissing(t, w, [p]) == OneWithMissing(t, w, p)
  {
    assert [p][1..] == [];
    assert OneWithOps(t, w, p) + [] == OneWithOps(t, w, p) && OneWithMissing(t, w, p) + [] == OneWithMissing(t, w, p);
  }

  lemma TwoStaged<W>(t: Tool<W>, w: W, p: Path, q: Path)
    requires t.claims(p) && t.claims(q) && PlanConnector(t, w, p).Ok? && PlanConnector(t, w, q).Ok?
    ensures AllPlan(t, w, [p, q])
    ensures WithOps(t, w, [p, q]) == OneWithOps(t, w, p) + OneWithOps(t, w, q)
    ensures WithMissing(t, w, [p, q]) == OneWithMissing(t, w, p) + OneWithMissing(t, w, q)
  {
    assert [p, q][0] == p && [p, q][1..] == [q];
    OneStaged(t, w, q);
  }

  /** A round that executes one operation. */
  lemma RoundOfOne<W>(t: Tool<W>, w: W, staged: seq<Path>, x: Path, w': W, goOn: bool)
    requires AllPlan(t, w, staged) && WithOps(t, w, staged) == [PlanReport(x, 1, {})]
    requires goOn == (WithMissing(t, w, staged) != [])
    requires t.exec(w, x, 1).1.Ok? && t.exec(w, x, 1).0 == w'
    ensures Round(t, w, staged, w', goOn)
  {
    var r := PlanReport(x, 1, {});
    assert [r][1..] == [];
    assert Executed(t, w, [r]) == Executed(t, w', []);
  }

  lemma TwoRounds<W(!new)>(t: Tool<W>, w: W, next: W, w': W, staged: seq<Path>)
    requires staged != [] && Round(t, w, staged, next, true) && Round(t, next, staged, w', false)
    ensures Rounds(t, w, staged, w', 2)
  {
    assert Rounds(t, next, staged, w', 1);
  }
}
