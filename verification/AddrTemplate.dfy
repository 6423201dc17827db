/** Address templates of the SDKs: `match_addr`/`matchAddr` turn a template such as
    `db/[database]/[name].sql` into a pattern, `form_path`/`formPath` print an address. */
module AddrTemplate {
  import opened Collections
  import opened Text
  import opened Wrappers

  /** A template is literal characters and named placeholders. */
  datatype Token = Lit(c: char) | Var(name: string)

  type Values = map<string, string>

  // -------------------------------------------------------------- tokenising

  /** `None` is the error for a `[` without a `]` after it. */
  function Tokens(t: string): Option<seq<Token>>
    decreases |t|
  {
    if t == "" then Some([])
    else if t[0] == '[' then
      var n := IndexOf(t[1..], ']');
      if 1 + n == |t| then None
      else match Tokens(t[n + 2..])
        case None => None
        case Some(rest) => Some([Var(t[1..][..n])] + rest)
    else match Tokens(t[1..])
      case None => None
      case Some(rest) => Some([Lit(t[0])] + rest)
  }

  lemma TokensAfter(p: seq<Token>, t: string, n: nat)
    requires t != ""
    requires t[0] == '[' ==> n < |t[1..]| && IndexOf(t[1..], ']') == n
    ensures Prepend(p, Tokens(t)) ==
            if t[0] == '[' then Prepend(p + [Var(t[1..][..n])], Tokens(t[n + 2..])) else Prepend(p + [Lit(t[0])], Tokens(t[1..]))
  {
    var tok, rest := if t[0] == '[' then Var(t[1..][..n]) else Lit(t[0]), Tokens(if t[0] == '[' then t[n + 2..] else t[1..]);
    if rest.Some? {
      assert p + ([tok] + rest.value) == p + [tok] + rest.value;
    }
  }

  lemma LiteralAt(p: seq<Token>, t: string, i: nat)
    requires i < |t| && t[i] != '['
    ensures Prepend(p, Tokens(t[i..])) == Prepend(p + [Lit(t[i])], Tokens(t[i + 1..]))
  {
    DropTwice(t, i, 1);
    TokensAfter(p, t[i..], 0);
  }

  lemma NameAt(p: seq<Token>, t: string, start: nat, i: nat)
    requires 0 < start <= i < |t| && t[start - 1] == '[' && i == start + IndexOf(t[start..], ']')
    ensures Prepend(p, Tokens(t[start - 1..])) == Prepend(p + [Var(t[start..i])], Tokens(t[i + 1..]))
  {
    DropTwice(t, start - 1, 1);
    DropTwice(t, start - 1, i - start + 2);
    TakeInside(t, start, i - start);
    VarAfter(p, t[start - 1..], t[start..], t[start..i], t[i + 1..]);
  }

  lemma VarAfter(p: seq<Token>, t: string, behind: string, name: string, rest: string)
    requires |t| > 0 && t[0] == '[' && behind == t[1..] && |name| == IndexOf(behind, ']') < |behind|
    requires name == behind[..|name|] && rest == t[|name| + 2..]
    ensures Prepend(p, Tokens(t)) == Prepend(p + [Var(name)], Tokens(rest))
  {
    TokensAfter(p, t, |name|);
  }

  lemma Unclosed(t: string, start: nat)
    requires 0 < start <= |t| && t[start - 1] == '['
    ensures IndexOf(t[start..], ']') == |t| - start ==> Tokens(t[start - 1..]).None?
  {
    DropTwice(t, start - 1, 1);
  }

  /** The inner loop of the tokeniser: where the placeholder ends. */
  method ScanName(t: string, start: nat) returns (i: nat)
    requires start <= |t|
    ensures start <= i <= |t| && i == start + IndexOf(t[start..], ']')
  {
    i := start;
    while i < |t| && t[i] != ']'
      invariant start <= i <= |t|
      invariant forall m :: start <= m < i ==> t[m] != ']'
    {
      i := i + 1;
    }
    FirstIndex(t[start..], ']', i - start);
  }

  /** The character loop of `match_addr` and `matchAddr`. */
  method Tokenise(t: string) returns (r: Option<seq<Token>>)
    ensures r == Tokens(t)
  {
    var pattern: seq<Token> := [];
    var i := 0;
    assert t[0..] == t && (Tokens(t).Some? ==> [] + Tokens(t).value == Tokens(t).value);
    while i < |t|
      invariant i <= |t|
      invariant Tokens(t) == Prepend(pattern, Tokens(t[i..]))
    {
      if t[i] == '[' {
        var start := i + 1;
        i := ScanName(t, start);
        Unclosed(t, start);
        if i == |t| {
          return None;
        }
        NameAt(pattern, t, start, i);
        pattern := pattern + [Var(t[start..i])];
        i := i + 1;
      } else {
        LiteralAt(pattern, t, i);
        pattern := pattern + [Lit(t[i])];
        i := i + 1;
      }
    }
    assert t[i..] == "" && pattern + [] == pattern;
    r := Some(pattern);
  }

  function Prepend(p: seq<Token>, r: Option<seq<Token>>): Option<seq<Token>> {
    match r case None => None case Some(ts) => Some(p + ts)
  }

  // ---------------------------------------------------------------- printing

  /** `form_path`: every `[key]` with a non-empty key is replaced by its value, anything
      else stands for itself; `None` is the error for a key without a value. */
  function FormPath(t: string, a: Values): Option<string>
    decreases |t|
  {
    if t == "" then Some("")
    else
      var n := IndexOf(t[1..], ']');
      if t[0] == '[' && 0 < n && 1 + n < |t| then
        var key := t[1..][..n];
        if key !in a then None
        else match FormPath(t[n + 2..], a)
          case None => None
          case Some(rest) => Some(a[key] + rest)
      else match FormPath(t[1..], a)
        case None => None
        case Some(rest) => Some([t[0]] + rest)
  }

  function Render(ts: seq<Token>, a: Values): Option<string> {
    if ts == [] then Some("")
    else match Render(ts[1..], a)
      case None => None
      case Some(rest) =>
        match ts[0]
        case Lit(c) => Some([c] + rest)
        case Var(name) => if name in a then Some(a[name] + rest) else None
  }

  /** The tokeniser and the substitution cut a template at the same places. */
  lemma {:induction false} FormPathIsRender(t: string, a: Values)
    requires Tokens(t).Some? && Var("") !in Tokens(t).value
    ensures FormPath(t, a) == Render(Tokens(t).value, a)
    decreases |t|
  {
    if t != "" {
      var ts := Tokens(t).value;
      if t[0] == '[' {
        var n := IndexOf(t[1..], ']');
        var rest := Tokens(t[n + 2..]).value;
        assert ts == [Var(t[1..][..n])] + rest;
        assert ts[0] in ts;
        assert |ts[0].name| == n;
        FormPathIsRender(t[n + 2..], a);
        assert ts[1..] == rest;
      } else {
        var rest := Tokens(t[1..]).value;
        assert ts == [Lit(t[0])] + rest;
        FormPathIsRender(t[1..], a);
        assert ts[1..] == rest;
      }
    }
  }

  // ---------------------------------------------------------------- matching

  function Names(ts: seq<Token>): set<string> {
    if ts == [] then {} else Names(ts[1..]) + if ts[0].Var? then {ts[0].name} else {}
  }

  /** No placeholder twice: compiling the pattern is an error otherwise. */
  predicate Distinct(ts: seq<Token>) {
    ts != [] ==> (ts[0].Var? ==> ts[0].name !in Names(ts[1..])) && Distinct(ts[1..])
  }

  /** Leftmost-first, greedy matching of the whole text; each placeholder is `[^/]+`.  A
      `lenient` end (Python's `$`) also accepts one newline that is left over. */
  function Match(ts: seq<Token>, s: string, lenient: bool): Option<Values>
    decreases |ts|, |s| + 1
  {
    if ts == [] then (if s == "" || (lenient && s == "\n") then Some(map[]) else None)
    else match ts[0]
      case Lit(c) => if s != "" && s[0] == c then Match(ts[1..], s[1..], lenient) else None
      case Var(_) => MatchVar(ts, s, IndexOf(s, '/'), lenient)
  }

  function MatchVar(ts: seq<Token>, s: string, k: nat, lenient: bool): Option<Values>
    requires ts != [] && ts[0].Var? && k <= |s|
    decreases |ts|, k
  {
    if k == 0 then None
    else match Match(ts[1..], s[k..], lenient)
      case Some(m) => Some(m[ts[0].name := s[..k]])
      case None => MatchVar(ts, s, k - 1, lenient)
  }

  /** Every placeholder has a non-empty value within one path segment. */
  ghost predicate Fills(ts: seq<Token>, a: Values) {
    forall n :: n in Names(ts) ==> n in a && a[n] != "" && '/' !in a[n]
  }

  lemma {:induction false} RenderFrame(ts: seq<Token>, a: Values, b: Values)
    requires forall n :: n in Names(ts) ==> n in a && n in b && a[n] == b[n]
    ensures Render(ts, a) == Render(ts, b)
  {
    if ts != [] {
      RenderFrame(ts[1..], a, b);
    }
  }

  lemma {:induction false} RenderDefined(ts: seq<Token>, a: Values)
    requires Fills(ts, a)
    ensures Render(ts, a).Some?
  {
    if ts != [] {
      RenderDefined(ts[1..], a);
    }
  }

  lemma NoSlash(s: string, k: nat)
    requires k <= IndexOf(s, '/')
    ensures '/' !in s[..k]
  {}

  /** The values print to the text, or to all of it but an ignored newline. */
  ghost predicate Prints(ts: seq<Token>, m: Values, s: string, lenient: bool) {
    Render(ts, m).Some? && (Render(ts, m).value == s || (lenient && Render(ts, m).value + "\n" == s))
  }

  /** What a match captures prints back to the text, but for the newline it may ignore. */
  lemma {:induction false} MatchSound(ts: seq<Token>, s: string, lenient: bool)
    requires Distinct(ts) && Match(ts, s, lenient).Some?
    ensures var m := Match(ts, s, lenient).value;
      && m.Keys == Names(ts) && Fills(ts, m)
      && Prints(ts, m, s, lenient)
    decreases |ts|, |s| + 1
  {
    if ts == [] {
    } else if ts[0].Lit? {
      MatchSound(ts[1..], s[1..], lenient);
      assert s == [s[0]] + s[1..];
      var r := Render(ts[1..], Match(ts[1..], s[1..], lenient).value).value;
      assert [s[0]] + r + "\n" == [s[0]] + (r + "\n");
    } else {
      MatchVarSound(ts, s, IndexOf(s, '/'), lenient);
    }
  }

  lemma VarPrints(ts: seq<Token>, s: string, k: nat, tail: Values, lenient: bool)
    requires Distinct(ts) && ts != [] && ts[0].Var? && 0 < k <= |s| && '/' !in s[..k]
    requires tail.Keys == Names(ts[1..]) && Fills(ts[1..], tail) && Prints(ts[1..], tail, s[k..], lenient)
    ensures var m := tail[ts[0].name := s[..k]];
      m.Keys == Names(ts) && Fills(ts, m) && Prints(ts, m, s, lenient)
  {
    var m := tail[ts[0].name := s[..k]];
    RenderFrame(ts[1..], tail, m);
    SplitAt(s, k);
    Associative(s[..k], Render(ts[1..], m).value, "\n");
  }

  lemma {:induction false} MatchVarSound(ts: seq<Token>, s: string, k: nat, lenient: bool)
    requires Distinct(ts) && ts != [] && ts[0].Var? && k <= IndexOf(s, '/') && MatchVar(ts, s, k, lenient).Some?
    ensures var m := MatchVar(ts, s, k, lenient).value;
      && m.Keys == Names(ts) && Fills(ts, m)
      && Prints(ts, m, s, lenient)
    decreases |ts|, k
  {
    var tail := Match(ts[1..], s[k..], lenient);
    if tail.Some? {
      MatchSound(ts[1..], s[k..], lenient);
      NoSlash(s, k);
      VarPrints(ts, s, k, tail.value, lenient);
    } else {
      MatchVarSound(ts, s, k - 1, lenient);
    }
  }

  /** `m` is at least as greedy as `u`: at the first placeholder where they differ, longer. */
  ghost predicate Greedier(ts: seq<Token>, m: Values, u: Values)
    requires Names(ts) <= m.Keys && Names(ts) <= u.Keys
  {
    if ts == [] then true
    else if ts[0].Lit? then Greedier(ts[1..], m, u)
    else
      var n := ts[0].name;
      |m[n]| > |u[n]| || (m[n] == u[n] && Greedier(ts[1..], m, u))
  }

  lemma {:induction false} GreedierFrame(ts: seq<Token>, m: Values, m': Values, u: Values)
    requires Names(ts) <= m.Keys && Names(ts) <= m'.Keys && Names(ts) <= u.Keys
    requires forall n :: n in Names(ts) ==> m[n] == m'[n]
    ensures Greedier(ts, m, u) == Greedier(ts, m', u)
  {
    if ts != [] {
      GreedierFrame(ts[1..], m, m', u);
    }
  }

  /** If any values print to the text, the match succeeds, at least as greedily. */
  lemma {:induction false} MatchComplete(ts: seq<Token>, s: string, lenient: bool, u: Values)
    requires Distinct(ts) && Fills(ts, u) && Render(ts, u) == Some(s)
    ensures Match(ts, s, lenient).Some?
    ensures Match(ts, s, lenient).value.Keys == Names(ts)
    ensures Greedier(ts, Match(ts, s, lenient).value, u)
    decreases |ts|, |s| + 1
  {
    if ts == [] {
    } else if ts[0].Lit? {
      MatchComplete(ts[1..], s[1..], lenient, u);
    } else {
      var v, tail := u[ts[0].name], Render(ts[1..], u).value;
      assert s == v + tail;
      var k := IndexOf(s, '/');
      assert forall i :: 0 <= i < |v| ==> s[i] == v[i];
      MatchVarComplete(ts, s, k, lenient, u);
    }
    MatchSound(ts, s, lenient);
  }

  lemma {:induction false} MatchVarComplete(ts: seq<Token>, s: string, k: nat, lenient: bool, u: Values)
    requires Distinct(ts) && Fills(ts, u) && Render(ts, u) == Some(s)
    requires ts != [] && ts[0].Var? && |u[ts[0].name]| <= k <= IndexOf(s, '/')
    ensures MatchVar(ts, s, k, lenient).Some?
    ensures Names(ts) <= MatchVar(ts, s, k, lenient).value.Keys
    ensures Greedier(ts, MatchVar(ts, s, k, lenient).value, u)
    decreases |ts|, k
  {
    var n := ts[0].name;
    var v, tail := u[n], Render(ts[1..], u).value;
    assert s == v + tail;
    if k == |v| {
      assert s[k..] == tail && s[..k] == v;
      MatchComplete(ts[1..], tail, lenient, u);
    }
    var m := Match(ts[1..], s[k..], lenient);
    if m.Some? {
      MatchSound(ts[1..], s[k..], lenient);
      GreedierFrame(ts[1..], m.value, m.value[n := s[..k]], u);
    } else {
      MatchVarComplete(ts, s, k - 1, lenient, u);
    }
  }
}
