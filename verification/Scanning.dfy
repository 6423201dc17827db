/** Expansion as a parse: the tokens a text falls into, and what becomes of each. */
module Scanning {
  import opened Collections
  import opened Wrappers
  import opened Template
  import opened ReverseTemplate
  import Deferral

  /** The tokens are what the scanner finds from left to right: at every reference it matches
      that reference, at every other character none. */
  ghost predicate Scanned(ts: seq<Token>) {
    forall i :: 0 <= i < |ts| ==>
      match ts[i]
      case Lit(_) => MatchAt(Render(ts[i..])).None?
      case Ref(r, text) => text == r.IntoString() && MatchAt(Render(ts[i..])) == Some(r)
  }

  /** A reference shows its value, or itself if it has none. */
  function Shown(get: Readable, ts: seq<Token>): string {
    if ts == [] then "" else ShownOne(get, ts[0]) + Shown(get, ts[1..])
  }

  function ShownOne(get: Readable, t: Token): string {
    match t
    case Lit(c) => [c]
    case Ref(r, text) => if get(r).Some? then get(r).value else text
  }

  function RefsOf(ts: seq<Token>): seq<ReadOutput> {
    if ts == [] then [] else (if ts[0].Ref? then [ts[0].r] else []) + RefsOf(ts[1..])
  }

  lemma ScannedFront(t: Token, ts: seq<Token>)
    requires Scanned(ts)
    requires match t
      case Lit(_) => MatchAt(Render([t] + ts)).None?
      case Ref(r, text) => text == r.IntoString() && MatchAt(Render([t] + ts)) == Some(r)
    ensures Scanned([t] + ts)
  {
    var us := [t] + ts;
    forall i | 0 < i < |us| ensures us[i] == ts[i - 1] && us[i..] == ts[i - 1..] {}
    assert us[0..] == us;
  }

  lemma RenderFront(t: Token, ts: seq<Token>)
    ensures Render([t] + ts) == t.Text() + Render(ts)
  {
    assert ([t] + ts)[1..] == ts;
  }

  lemma TokenFront(get: Readable, t: Token, ts: seq<Token>)
    ensures Shown(get, [t] + ts) == ShownOne(get, t) + Shown(get, ts)
    ensures RefsOf([t] + ts) == (if t.Ref? then [t.r] else []) + RefsOf(ts)
  {
    assert ([t] + ts)[1..] == ts;
  }

  /** Every text is a sequence of scanned tokens; expanding shows them one after the other,
      and the references read are those among them. */
  lemma {:induction false} ExpandParses(get: Readable, s: string) returns (ts: seq<Token>)
    ensures Render(ts) == s && Scanned(ts)
    ensures Expand(get, s).body == Shown(get, ts)
    ensures ReadOutputs(s) == RefsOf(ts)
    decreases |s|
  {
    if s == "" {
      ts := [];
    } else {
      match MatchAt(s)
      case None =>
        var us := ExpandParses(get, s[1..]);
        ts := [Lit(s[0])] + us;
        RenderFront(Lit(s[0]), us);
        assert [s[0]] + s[1..] == s;
        ScannedFront(Lit(s[0]), us);
        TokenFront(get, Lit(s[0]), us);
        assert [] + RefsOf(us) == RefsOf(us);
      case Some(r) =>
        MatchAtIff(s, r);
        var text := r.IntoString();
        var us := ExpandParses(get, s[|text|..]);
        ts := [Ref(r, text)] + us;
        RenderFront(Ref(r, text), us);
        PrefixSplits(text, s);
        ScannedFront(Ref(r, text), us);
        TokenFront(get, Ref(r, text), us);
    }
  }

  lemma {:induction false} ShownIsMeaning(get: Readable, ts: seq<Token>)
    requires forall r :: r in RefsOf(ts) ==> get(r).Some?
    ensures Shown(get, ts) == Meaning(get, ts)
  {
    if ts != [] {
      assert ts[0].Ref? ==> ts[0].r in RefsOf(ts);
      assert forall r :: r in RefsOf(ts[1..]) ==> r in RefsOf(ts);
      ShownIsMeaning(get, ts[1..]);
    }
  }

  // ---------------------------------------------------- what a connector is given

  /** A text file that waits for nothing reaches the connector with every reference replaced
      by its value, and nothing else changed. */
  lemma DesiredIsMeaning<W>(t: Deferral.Tool<W>, w: W, p: Deferral.Path) returns (ts: seq<Token>)
    requires t.body(p).Text? && !Deferral.Waits(t, w, p)
    ensures Render(ts) == t.body(p).text && Scanned(ts)
    ensures Deferral.Desired(t, w, p) == Deferral.Text(Meaning(t.readable(w), ts))
  {
    var s := t.body(p).text;
    ts := ExpandParses(t.readable(w), s);
    forall r | r in RefsOf(ts) ensures t.readable(w)(r).Some? {
      assert r in Deferral.Needs(t, p);
      assert Deferral.Reads(t, w, r);
    }
    ShownIsMeaning(t.readable(w), ts);
  }

  /** The same of a text given as tokens, provided that it does not come to spell a mark. */
  lemma DesiredOfTokens<W>(t: Deferral.Tool<W>, w: W, p: Deferral.Path, ts: seq<Token>)
    requires t.body(p) == Deferral.Text(Render(ts)) && !Contains(Meaning(t.readable(w), ts), MARK)
    requires forall x :: x in ts ==> x.Good(t.readable(w))
    ensures Deferral.Desired(t, w, p) == Deferral.Text(Meaning(t.readable(w), ts))
  {
    ExpandIsMeaning(t.readable(w), ts);
  }

  /** A file that is no text, or absent, reaches it as it is. */
  lemma DesiredOfOthers<W>(t: Deferral.Tool<W>, w: W, p: Deferral.Path)
    requires !t.body(p).Text?
    ensures Deferral.Desired(t, w, p) == t.body(p)
  {}

  /** Planning what waits for nothing: the connector has to know the address, show the present
      state if it knows a physical one, and plan; its operations are what is reported. */
  lemma PlanIs<W(!new)>(t: Deferral.Tool<W>, w: W, p: Deferral.Path)
    requires Deferral.MappingDefers(t, w, p) && !Deferral.Waits(t, w, p)
    ensures var plan := Deferral.PlanConnector(t, w, p);
      var ops := t.ops(w, p, Deferral.Desired(t, w, p));
      && (plan.Ok? <==>
            t.mapping(w, p).Ok? && (t.mapping(w, p).value.Known? ==> t.get(w, p)) && !t.body(p).Unreadable? && ops.Ok?)
      && (plan.Ok? ==> plan.value == Deferral.PlanReport(p, ops.value, {}))
  {
    if t.body(p).Text? {
      MissingIff(t, w, p);
    }
  }

  /** Planning what waits: the file is not looked at if the address itself is deferred; no
      operations are reported, and some missing outputs. */
  lemma WaitIs<W(!new)>(t: Deferral.Tool<W>, w: W, p: Deferral.Path)
    requires Deferral.MappingDefers(t, w, p) && Deferral.Waits(t, w, p)
    ensures var plan := Deferral.PlanConnector(t, w, p);
      && (plan.Ok? <==>
            t.mapping(w, p).Ok?
            && (!t.mapping(w, p).value.Deferred? ==> (t.mapping(w, p).value.Known? ==> t.get(w, p))))
      && (plan.Ok? ==> plan.value.path == p && plan.value.ops == 0 && plan.value.missing != {})
      && (t.mapping(w, p).Ok? && t.mapping(w, p).value.Deferred? ==> plan.value.missing == t.mapping(w, p).value.outputs)
      && (plan.Ok? && !t.mapping(w, p).value.Deferred? ==>
            forall r :: r in plan.value.missing <==> r in ReadOutputs(t.body(p).text) && !Deferral.Reads(t, w, r))
  {
    if t.mapping(w, p).Ok? && !t.mapping(w, p).value.Deferred? {
      WaitsForText(t, w, p);
      MissingIff(t, w, p);
    }
  }

  /** Where the address is not deferred, it is the text that lacks outputs. */
  lemma WaitsForText<W(!new)>(t: Deferral.Tool<W>, w: W, p: Deferral.Path)
    requires Deferral.MappingDefers(t, w, p) && Deferral.Waits(t, w, p)
    requires t.mapping(w, p).Ok? && !t.mapping(w, p).value.Deferred?
    ensures t.body(p).Text? && exists r :: r in ReadOutputs(t.body(p).text) && !Deferral.Reads(t, w, r)
  {
    var r :| r in Deferral.Needs(t, p) && !Deferral.Reads(t, w, r);
    assert r !in t.parents(p);
  }

  lemma MissingIff<W>(t: Deferral.Tool<W>, w: W, p: Deferral.Path)
    requires t.body(p).Text?
    ensures var missing := Expand(t.readable(w), t.body(p).text).missing;
      && (forall r :: r in missing <==> r in ReadOutputs(t.body(p).text) && !Deferral.Reads(t, w, r))
      && (missing != {} ==> Deferral.Waits(t, w, p))
      && ((exists r :: r in ReadOutputs(t.body(p).text) && !Deferral.Reads(t, w, r)) ==> missing != {})
  {
    ExpandSplitsReferences(t.readable(w), t.body(p).text);
    var missing := Expand(t.readable(w), t.body(p).text).missing;
    if missing != {} {
      var r :| r in missing;
      assert r in Deferral.Needs(t, p);
    }
  }

  // ------------------------------------------------------------ order of a round

  lemma {:induction false} WithOpsAppend<W>(t: Deferral.Tool<W>, w: W, a: seq<Deferral.Path>, b: seq<Deferral.Path>)
    ensures Deferral.WithOps(t, w, a + b) == Deferral.WithOps(t, w, a) + Deferral.WithOps(t, w, b)
    ensures Deferral.WithMissing(t, w, a + b) == Deferral.WithMissing(t, w, a) + Deferral.WithMissing(t, w, b)
    decreases |a|
  {
    if a == [] {
      assert a + b == b;
    } else {
      assert (a + b)[1..] == a[1..] + b;
      WithOpsAppend(t, w, a[1..], b);
      Associative(Deferral.OneWithOps(t, w, a[0]), Deferral.WithOps(t, w, a[1..]), Deferral.WithOps(t, w, b));
      Associative(Deferral.OneWithMissing(t, w, a[0]), Deferral.WithMissing(t, w, a[1..]), Deferral.WithMissing(t, w, b));
    }
  }

  /** Executing plans goes on from the state the ones before left, and stops at the first that fails. */
  lemma {:induction false} ExecutedAppend<W>(t: Deferral.Tool<W>, w: W, a: seq<Deferral.PlanReport>, r: Deferral.PlanReport,
                                             b: seq<Deferral.PlanReport>)
    ensures var (w1, ok) := Deferral.Executed(t, w, a);
      var (w2, result) := t.exec(w1, r.path, r.ops);
      && (!ok ==> Deferral.Executed(t, w, a + [r] + b) == (w1, false))
      && (ok && result.Err? ==> Deferral.Executed(t, w, a + [r] + b) == (w2, false))
      && (ok && result.Ok? ==> Deferral.Executed(t, w, a + [r] + b) == Deferral.Executed(t, w2, b))
    decreases |a|
  {
    var all := a + [r] + b;
    if a == [] {
      assert all == [r] + b && all[1..] == b;
    } else {
      assert all[0] == a[0] && all[1..] == a[1..] + [r] + b;
      var (next, result) := t.exec(w, a[0].path, a[0].ops);
      if result.Ok? {
        ExecutedAppend(t, next, a[1..], r, b);
      }
    }
  }
}
