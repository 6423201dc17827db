/** When printing and matching addresses are inverse to each other. */
module AddrRoundTrip {
  import opened Collections
  import opened Text
  import opened Wrappers
  import opened AddrTemplate

  // --------------------------------------------- the newline Python ignores

  /** The literal characters after the last placeholder. */
  function Ending(ts: seq<Token>): (l: string)
    ensures |l| <= |ts|
  {
    if ts == [] then ""
    else if ts[0].Lit? && |Ending(ts[1..])| == |ts[1..]| then [ts[0].c] + Ending(ts[1..])
    else Ending(ts[1..])
  }

  ghost predicate EndsIn(s: string, l: string) {
    |l| <= |s| && s[|s| - |l|..] == l
  }

  lemma LongerEndsIn(v: string, s: string, l: string)
    requires EndsIn(s, l)
    ensures EndsIn(v + s, l)
  {
    assert (v + s)[|v + s| - |l|..] == s[|s| - |l|..];
  }

  lemma {:induction false} RenderEndsInEnding(ts: seq<Token>, a: Values)
    requires Render(ts, a).Some?
    ensures EndsIn(Render(ts, a).value, Ending(ts))
    ensures |Ending(ts)| == |ts| ==> Render(ts, a).value == Ending(ts)
  {
    if ts != [] {
      RenderEndsInEnding(ts[1..], a);
      LongerEndsIn(if ts[0].Lit? then [ts[0].c] else a[ts[0].name], Render(ts[1..], a).value, Ending(ts[1..]));
    }
  }

  /** A text that ends in `l` and also in `l` and a newline: `l` is all newlines. */
  lemma {:induction false} AllNewlines(s: string, l: string, i: nat)
    requires EndsIn(s, l) && EndsIn(s, l + "\n") && i < |l|
    ensures l[i] == '\n'
    decreases |l| - i
  {
    var n := |s| - |l|;
    assert s[n..][i] == s[n + i] == l[i];
    assert s[n - 1..][i + 1] == s[n + i] == (l + "\n")[i + 1];
    if i + 1 < |l| {
      AllNewlines(s, l, i + 1);
    }
  }

  predicate Newlines(l: string) {
    forall i :: 0 <= i < |l| ==> l[i] == '\n'
  }

  /** After the last placeholder come only newlines: it can take one more of them. */
  lemma {:induction false} LastTakesNewline(ts: seq<Token>, m: Values) returns (u: Values)
    requires Distinct(ts) && Fills(ts, m) && Render(ts, m).Some?
    requires |Ending(ts)| < |ts| && Newlines(Ending(ts))
    ensures Fills(ts, u) && Render(ts, u) == Some(Render(ts, m).value + "\n")
    ensures forall n :: n !in Names(ts) ==> (n in u <==> n in m) && (n in m ==> u[n] == m[n])
    decreases |ts|
  {
    var rest := ts[1..];
    var r := Render(rest, m).value;
    if |Ending(rest)| < |rest| {
      u := LastTakesNewline(rest, m);
      match ts[0]
      case Lit(c) => assert [c] + r + "\n" == [c] + (r + "\n");
      case Var(n) => assert m[n] + r + "\n" == m[n] + (r + "\n");
    } else {
      var n := ts[0].name;
      u := m[n := m[n] + "\n"];
      RenderFrame(rest, m, u);
      RenderEndsInEnding(rest, m);
      assert "\n" + r == r + "\n";
      assert m[n] + "\n" + r == m[n] + r + "\n";
    }
  }

  lemma TailEndsIn(s: string, k: nat, l: string)
    requires k <= |s| && EndsIn(s[k..], l)
    ensures EndsIn(s, l)
  {
    assert s[k..][|s[k..]| - |l|..] == s[|s| - |l|..];
  }

  lemma EndsInMore(r: string, l: string)
    requires EndsIn(r, l)
    ensures EndsIn(r + "\n", l + "\n")
  {
    assert r + "\n" == r[..|r| - |l|] + (l + "\n");
  }

  /** Two tails of one text: the shorter matches up to a newline, the longer exactly.  Then
      the shorter matches exactly, too. */
  lemma ShorterTailIsStrict(ts: seq<Token>, s: string, j: nat, k: nat)
    requires Distinct(ts) && j <= k <= |s|
    requires Match(ts, s[j..], false).Some? && Match(ts, s[k..], true).Some?
    ensures Match(ts, s[k..], false).Some?
  {
    var strict, m := Match(ts, s[j..], false).value, Match(ts, s[k..], true).value;
    MatchSound(ts, s[j..], false);
    MatchSound(ts, s[k..], true);
    if Render(ts, m).value == s[k..] {
      MatchComplete(ts, s[k..], false, m);
    } else {
      var l := Ending(ts);
      RenderEndsInEnding(ts, strict);
      RenderEndsInEnding(ts, m);
      TailEndsIn(s, j, l);
      EndsInMore(Render(ts, m).value, l);
      TailEndsIn(s, k, l + "\n");
      forall i | 0 <= i < |l| ensures l[i] == '\n' {
        AllNewlines(s, l, i);
      }
      assert |l| < |ts|;
      var u := LastTakesNewline(ts, m);
      MatchComplete(ts, s[k..], false, u);
    }
  }

  /** Where the whole text can be matched, Python's pattern captures what the strict one does. */
  lemma {:induction false} LenientIsStrict(ts: seq<Token>, s: string)
    requires Distinct(ts) && Match(ts, s, false).Some?
    ensures Match(ts, s, true) == Match(ts, s, false)
    decreases |ts|, |s| + 1
  {
    if ts != [] {
      if ts[0].Lit? {
        LenientIsStrict(ts[1..], s[1..]);
      } else {
        LenientIsStrictVar(ts, s, IndexOf(s, '/'));
      }
    }
  }

  lemma {:induction false} LenientIsStrictVar(ts: seq<Token>, s: string, k: nat)
    requires Distinct(ts) && ts != [] && ts[0].Var? && k <= |s| && MatchVar(ts, s, k, false).Some?
    ensures MatchVar(ts, s, k, true) == MatchVar(ts, s, k, false)
    decreases |ts|, k
  {
    if Match(ts[1..], s[k..], true).Some? {
      var j := StrictLength(ts, s, k);
      ShorterTailIsStrict(ts[1..], s, j, k);
      LenientIsStrict(ts[1..], s[k..]);
    } else {
      if Match(ts[1..], s[k..], false).Some? {
        LenientIsStrict(ts[1..], s[k..]);
      }
      LenientIsStrictVar(ts, s, k - 1);
    }
  }

  lemma {:induction false} StrictLength(ts: seq<Token>, s: string, k: nat) returns (j: nat)
    requires ts != [] && ts[0].Var? && k <= |s| && MatchVar(ts, s, k, false).Some?
    ensures j <= k && Match(ts[1..], s[j..], false).Some?
    decreases k
  {
    if Match(ts[1..], s[k..], false).Some? {
      j := k;
    } else {
      j := StrictLength(ts, s, k - 1);
    }
  }

  /** TypeScript: what a match captures prints back to the very text. */
  lemma PrintAfterMatch(t: string, s: string)
    requires Tokens(t).Some? && Var("") !in Tokens(t).value && Distinct(Tokens(t).value)
    ensures var m := Match(Tokens(t).value, s, false);
      m.Some? ==> FormPath(t, m.value) == Some(s)
  {
    var ts := Tokens(t).value;
    if Match(ts, s, false).Some? {
      MatchSound(ts, s, false);
      FormPathIsRender(t, Match(ts, s, false).value);
    }
  }

  /** Python: exactly if the text also matches without ignoring a final newline; in
      particular for every text that does not end in one. */
  lemma {:induction false} PrintAfterLenientMatchIff(t: string, s: string)
    requires Tokens(t).Some? && Var("") !in Tokens(t).value && Distinct(Tokens(t).value)
    requires Match(Tokens(t).value, s, true).Some?
    ensures var ts := Tokens(t).value;
      && (FormPath(t, Match(ts, s, true).value) == Some(s) <==> Match(ts, s, false).Some?)
      && (s == "" || s[|s| - 1] != '\n' ==> Match(ts, s, false).Some?)
  {
    var ts := Tokens(t).value;
    var m := Match(ts, s, true).value;
    MatchSound(ts, s, true);
    FormPathIsRender(t, m);
    if Render(ts, m) == Some(s) {
      MatchComplete(ts, s, false, m);
    }
    if Match(ts, s, false).Some? {
      LenientIsStrict(ts, s);
      MatchSound(ts, s, false);
    }
  }

  // ------------------------------------------------ one placeholder a segment

  /** The literals up to the next `/`, or up to the end, are not interrupted by a placeholder. */
  predicate SegmentIsLiteral(ts: seq<Token>) {
    ts == [] || (ts[0].Lit? && (ts[0].c == '/' || SegmentIsLiteral(ts[1..])))
  }

  /** No `/`-segment of the template holds two placeholders. */
  predicate OnePerSegment(ts: seq<Token>) {
    ts != [] ==> (ts[0].Var? ==> SegmentIsLiteral(ts[1..])) && OnePerSegment(ts[1..])
  }

  function SegmentLength(ts: seq<Token>): nat
    requires SegmentIsLiteral(ts)
  {
    if ts == [] || ts[0].c == '/' then 0 else 1 + SegmentLength(ts[1..])
  }

  lemma {:induction false} SlashAfterSegment(ts: seq<Token>, a: Values)
    requires SegmentIsLiteral(ts) && Render(ts, a).Some?
    ensures IndexOf(Render(ts, a).value, '/') == SegmentLength(ts)
  {
    if ts != [] && ts[0].c != '/' {
      SlashAfterSegment(ts[1..], a);
      var r := Render(ts[1..], a).value;
      assert ([ts[0].c] + r)[1..] == r;
    }
  }

  lemma SlashAfterValue(v: string, r: string)
    requires '/' !in v
    ensures IndexOf(v + r, '/') == |v| + IndexOf(r, '/')
  {
    var n := IndexOf(r, '/');
    assert forall i :: 0 <= i < |v| + n ==> (v + r)[i] == if i < |v| then v[i] else r[i - |v|];
    FirstIndex(v + r, '/', |v| + n);
  }

  /** With one placeholder a segment, only one filling prints to a given text. */
  lemma {:induction false} FillingIsUnique(ts: seq<Token>, a: Values, b: Values)
    requires OnePerSegment(ts) && Fills(ts, a) && Fills(ts, b)
    requires Render(ts, a).Some? && Render(ts, a) == Render(ts, b)
    ensures forall n :: n in Names(ts) ==> a[n] == b[n]
  {
    if ts != [] {
      var rest := ts[1..];
      var ra, rb := Render(rest, a).value, Render(rest, b).value;
      if ts[0].Var? {
        var n := ts[0].name;
        SlashAfterSegment(rest, a);
        SlashAfterSegment(rest, b);
        SlashAfterValue(a[n], ra);
        SlashAfterValue(b[n], rb);
        assert a[n] == (a[n] + ra)[..|a[n]|] && b[n] == (b[n] + rb)[..|b[n]|];
        assert ra == (a[n] + ra)[|a[n]|..] && rb == (b[n] + rb)[|b[n]|..];
      } else {
        assert ra == ([ts[0].c] + ra)[1..] && rb == ([ts[0].c] + rb)[1..];
      }
      FillingIsUnique(rest, a, b);
    }
  }

  /** What is matched is what was printed. */
  ghost predicate MatchUndoesPrint(ts: seq<Token>, a: Values, lenient: bool) {
    Render(ts, a).Some? && Match(ts, Render(ts, a).value, lenient) == Some(a)
  }

  lemma OnePerSegmentUndoes(ts: seq<Token>, a: Values, lenient: bool)
    requires Distinct(ts) && OnePerSegment(ts) && Fills(ts, a) && a.Keys == Names(ts)
    ensures MatchUndoesPrint(ts, a, lenient)
  {
    RenderDefined(ts, a);
    var s := Render(ts, a).value;
    MatchComplete(ts, s, false, a);
    MatchSound(ts, s, false);
    FillingIsUnique(ts, Match(ts, s, false).value, a);
    assert Match(ts, s, false).value == a;
    LenientIsStrict(ts, s);
  }

  // ------------------------------------------------------------ and only then

  function AllX(ts: seq<Token>): (a: Values)
    ensures a.Keys == Names(ts) && forall n :: n in a ==> a[n] == "x"
  {
    map n | n in Names(ts) :: "x"
  }

  /** The literals before the first placeholder of a segment that holds one. */
  function BeforeNext(ts: seq<Token>): (p: string)
    requires !SegmentIsLiteral(ts)
    ensures '/' !in p && |p| < |ts| && ts[|p|].Var?
  {
    if ts[0].Var? then "" else [ts[0].c] + BeforeNext(ts[1..])
  }

  lemma {:induction false} RenderBeforeNext(ts: seq<Token>, a: Values)
    requires !SegmentIsLiteral(ts) && Distinct(ts) && Fills(ts, a)
    ensures var p := BeforeNext(ts);
      && ts[|p|].name in Names(ts) && ts[|p|].name !in Names(ts[|p| + 1..])
      && Names(ts[|p| + 1..]) <= Names(ts)
      && Render(ts[|p| + 1..], a).Some?
      && Render(ts, a) == Some(p + (a[ts[|p|].name] + Render(ts[|p| + 1..], a).value))
  {
    RenderDefined(ts, a);
    if ts[0].Lit? {
      RenderBeforeNext(ts[1..], a);
      DropTwice(ts, 1, |BeforeNext(ts[1..])| + 1);
      var n := |BeforeNext(ts[1..])|;
      Associative([ts[0].c], BeforeNext(ts[1..]), a[ts[n + 1].name] + Render(ts[n + 2..], a).value);
    } else {
      var r := a[ts[0].name] + Render(ts[1..], a).value;
      assert "" + r == r;
    }
  }

  /** Two placeholders in one segment: some filling prints like another, greedier one. */
  lemma {:induction false} TwoPerSegmentAmbiguous(ts: seq<Token>) returns (a: Values, b: Values)
    requires Distinct(ts) && !OnePerSegment(ts)
    ensures Fills(ts, a) && Fills(ts, b) && a.Keys == b.Keys == Names(ts)
    ensures Render(ts, a).Some? && Render(ts, a) == Render(ts, b)
    ensures !Greedier(ts, a, b)
  {
    var rest := ts[1..];
    if ts[0].Lit? {
      a, b := TwoPerSegmentAmbiguous(rest);
    } else if SegmentIsLiteral(rest) {
      var n := ts[0].name;
      var a', b' := TwoPerSegmentAmbiguous(rest);
      a, b := a'[n := "x"], b'[n := "x"];
      RenderFrame(rest, a', a);
      RenderFrame(rest, b', b);
      GreedierFrames(rest, a', b', a, b);
    } else {
      a, b := TwoInFirstSegment(ts);
    }
  }

  lemma TwoInFirstSegment(ts: seq<Token>) returns (a: Values, b: Values)
    requires Distinct(ts) && ts != [] && ts[0].Var? && !SegmentIsLiteral(ts[1..])
    ensures Fills(ts, a) && Fills(ts, b) && a.Keys == b.Keys == Names(ts)
    ensures Render(ts, a).Some? && Render(ts, a) == Render(ts, b)
    ensures |a[ts[0].name]| < |b[ts[0].name]|
  {
    var rest := ts[1..];
    var n, p := ts[0].name, BeforeNext(rest);
    var m, long := rest[|p|].name, "x" + p + "x";
    RenderBeforeNext(rest, AllX(ts));
    a, b := AllX(ts)[m := long], AllX(ts)[n := long];
    RenderBeforeNext(rest, a);
    RenderBeforeNext(rest, b);
    var tail := rest[|p| + 1..];
    RenderFrame(tail, a, b);
    var r := Render(tail, a).value;
    Regroup(p, r);
  }

  lemma Regroup(p: string, r: string)
    ensures "x" + (p + ("x" + p + "x" + r)) == "x" + p + "x" + (p + ("x" + r))
  {}

  lemma {:induction false} GreedierFrames(ts: seq<Token>, m: Values, u: Values, m': Values, u': Values)
    requires Names(ts) <= m.Keys && Names(ts) <= m'.Keys && Names(ts) <= u.Keys && Names(ts) <= u'.Keys
    requires forall n :: n in Names(ts) ==> m[n] == m'[n] && u[n] == u'[n]
    ensures Greedier(ts, m, u) == Greedier(ts, m', u')
  {
    if ts != [] {
      GreedierFrames(ts[1..], m, u, m', u');
    }
  }

  /** Matching undoes printing for all addresses exactly if no segment of the template
      holds two placeholders, in either SDK. */
  lemma MatchAfterPrintIff(ts: seq<Token>, lenient: bool)
    requires Distinct(ts)
    ensures (forall a: Values :: Fills(ts, a) && a.Keys == Names(ts) ==> MatchUndoesPrint(ts, a, lenient)) <==> OnePerSegment(ts)
  {
    if OnePerSegment(ts) {
      forall a: Values | Fills(ts, a) && a.Keys == Names(ts) ensures MatchUndoesPrint(ts, a, lenient) {
        OnePerSegmentUndoes(ts, a, lenient);
      }
    } else {
      var a, b := TwoPerSegmentAmbiguous(ts);
      MatchComplete(ts, Render(ts, b).value, lenient, b);
      assert !MatchUndoesPrint(ts, a, lenient);
    }
  }
}
