/** Address templates as they are written: which texts are templates, what printing replaces,
    and what Python's end of pattern takes. */
module AddrSpelling {
  import opened Collections
  import opened Text
  import opened Wrappers
  import opened AddrTemplate

  // ------------------------------------------------------------- tokenising

  function Spell(ts: seq<Token>): string {
    if ts == [] then "" else SpellOne(ts[0]) + Spell(ts[1..])
  }

  function SpellOne(t: Token): string {
    match t case Lit(c) => [c] case Var(name) => "[" + (name + "]")
  }

  /** What brackets allow: no literal opens one, no name closes one. */
  predicate Spellable(ts: seq<Token>) {
    forall i :: 0 <= i < |ts| ==> match ts[i] case Lit(c) => c != '[' case Var(name) => ']' !in name
  }

  lemma BracketAt(name: string, rest: string)
    requires ']' !in name
    ensures var t := "[" + (name + "]") + rest;
      t[0] == '[' && IndexOf(t[1..], ']') == |name| && t[1..][..|name|] == name && t[|name| + 2..] == rest && |name| + 2 <= |t|
  {
    var t := "[" + (name + "]") + rest;
    assert t[1..] == name + ("]" + rest);
    assert t[1..][|name|] == ']' && forall m :: 0 <= m < |name| ==> t[1..][m] == name[m];
    FirstIndex(t[1..], ']', |name|);
  }

  lemma LiteralAt(c: char, rest: string)
    ensures ([c] + rest)[0] == c && ([c] + rest)[1..] == rest
  {}

  lemma {:induction false} TokensOfSpelled(ts: seq<Token>)
    requires Spellable(ts)
    ensures Tokens(Spell(ts)) == Some(ts)
  {
    if ts != [] {
      TokensOfSpelled(ts[1..]);
      assert [ts[0]] + ts[1..] == ts;
      match ts[0]
      case Lit(c) => LiteralAt(c, Spell(ts[1..]));
      case Var(name) => BracketAt(name, Spell(ts[1..]));
    }
  }

  lemma SpellFront(t: Token, ts: seq<Token>)
    ensures Spell([t] + ts) == SpellOne(t) + Spell(ts)
  {
    assert ([t] + ts)[1..] == ts;
  }

  lemma SpellableFront(t: Token, ts: seq<Token>)
    requires Spellable(ts) && match t case Lit(c) => c != '[' case Var(name) => ']' !in name
    ensures Spellable([t] + ts)
  {}

  lemma CutName(t: string, n: nat)
    requires t != "" && t[0] == '[' && n == IndexOf(t[1..], ']') < |t| - 1
    ensures t == "[" + (t[1..][..n] + "]") + t[n + 2..] && ']' !in t[1..][..n]
  {
    assert t[n + 1] == t[1..][n] == ']';
    assert t[1..][..n] == t[1..n + 1];
  }

  lemma {:induction false} SpelledOfTokens(t: string)
    requires Tokens(t).Some?
    ensures Spellable(Tokens(t).value) && Spell(Tokens(t).value) == t
    decreases |t|
  {
    if t != "" {
      if t[0] == '[' {
        var n := IndexOf(t[1..], ']');
        SpelledOfTokens(t[n + 2..]);
        CutName(t, n);
        SpellFront(Var(t[1..][..n]), Tokens(t[n + 2..]).value);
        SpellableFront(Var(t[1..][..n]), Tokens(t[n + 2..]).value);
      } else {
        SpelledOfTokens(t[1..]);
        assert [t[0]] + t[1..] == t;
        SpellFront(Lit(t[0]), Tokens(t[1..]).value);
        SpellableFront(Lit(t[0]), Tokens(t[1..]).value);
      }
    }
  }

  /** A text is a template of exactly the tokens that spell it. */
  lemma TokensIff(t: string, ts: seq<Token>)
    ensures Tokens(t) == Some(ts) <==> Spellable(ts) && Spell(ts) == t
  {
    if Tokens(t) == Some(ts) {
      SpelledOfTokens(t);
    }
    if Spellable(ts) && Spell(ts) == t {
      TokensOfSpelled(ts);
    }
  }

  /** Every text without an opening bracket, and only an unclosed one is refused. */
  lemma {:induction false} RefusedIff(t: string)
    ensures Tokens(t).None? <==> exists ts, x: string :: Spellable(ts) && ']' !in x && t == Spell(ts) + ("[" + x)
    decreases |t|
  {
    if Tokens(t).None? {
      var ts, x := UnclosedAt(t);
    }
    forall ts, x: string | Spellable(ts) && ']' !in x && t == Spell(ts) + ("[" + x) ensures Tokens(t).None? {
      UnclosedIsRefused(ts, x);
    }
  }

  lemma {:induction false} UnclosedAt(t: string) returns (ts: seq<Token>, x: string)
    requires Tokens(t).None?
    ensures Spellable(ts) && ']' !in x && t == Spell(ts) + ("[" + x)
    decreases |t|
  {
    if t[0] == '[' {
      var n := IndexOf(t[1..], ']');
      if 1 + n == |t| {
        ts, x := [], t[1..];
        assert t == "[" + x;
        assert Spell(ts) + ("[" + x) == "[" + x;
      } else {
        var us;
        us, x := UnclosedAt(t[n + 2..]);
        CutName(t, n);
        ts := [Var(t[1..][..n])] + us;
        SpellFront(Var(t[1..][..n]), us);
        SpellableFront(Var(t[1..][..n]), us);
        Associative("[" + (t[1..][..n] + "]"), Spell(us), "[" + x);
      }
    } else {
      var us;
      us, x := UnclosedAt(t[1..]);
      ts := [Lit(t[0])] + us;
      SpellFront(Lit(t[0]), us);
      SpellableFront(Lit(t[0]), us);
      Associative([t[0]], Spell(us), "[" + x);
      assert [t[0]] + t[1..] == t;
    }
  }

  lemma {:induction false} UnclosedIsRefused(ts: seq<Token>, x: string)
    requires Spellable(ts) && ']' !in x
    ensures Tokens(Spell(ts) + ("[" + x)).None?
    decreases |ts|
  {
    if ts == [] {
      var t := "[" + x;
      assert "" + t == t && t[1..] == x;
    } else {
      UnclosedIsRefused(ts[1..], x);
      var rest := Spell(ts[1..]) + ("[" + x);
      Associative(SpellOne(ts[0]), Spell(ts[1..]), "[" + x);
      match ts[0]
      case Lit(c) => LiteralAt(c, rest);
      case Var(name) => BracketAt(name, rest);
    }
  }

  // ---------------------------------------------------------------- printing

  function Before(x: string, r: Option<string>): Option<string> {
    match r case None => None case Some(y) => Some(x + y)
  }

  /** Literal text is printed as it is. */
  lemma {:induction false} PrintsLiteral(x: string, y: string, a: Values)
    requires '[' !in x
    ensures FormPath(x + y, a) == Before(x, FormPath(y, a))
    decreases |x|
  {
    if x == "" {
      assert x + y == y && (FormPath(y, a).Some? ==> "" + FormPath(y, a).value == FormPath(y, a).value);
    } else {
      assert (x + y)[0] == x[0] && (x + y)[1..] == x[1..] + y && x[0] in x;
      assert forall c :: c in x[1..] ==> c in x;
      PrintsLiteral(x[1..], y, a);
      if FormPath(y, a).Some? {
        Associative([x[0]], x[1..], FormPath(y, a).value);
        assert [x[0]] + x[1..] == x;
      }
    }
  }

  /** A placeholder is printed as its value, and an error if it has none. */
  lemma PrintsValue(name: string, y: string, a: Values)
    requires name != "" && ']' !in name
    ensures FormPath("[" + (name + "]") + y, a) == if name in a then Before(a[name], FormPath(y, a)) else None
  {
    BracketAt(name, y);
  }

  /** Empty brackets stay, and so does what has no closing bracket behind it. */
  lemma PrintsEmptyBrackets(y: string, a: Values)
    ensures FormPath("[]" + y, a) == Before("[]", FormPath(y, a))
  {
    var t := "[]" + y;
    assert t[1..] == "]" + y && t[1..][0] == ']' && t[1..][1..] == y;
    assert FormPath(t[1..], a) == Before("]", FormPath(y, a));
    if FormPath(y, a).Some? {
      Associative("[", "]", FormPath(y, a).value);
      assert "[" + "]" == "[]";
    }
  }

  lemma {:induction false} PrintsUnclosed(t: string, a: Values)
    requires ']' !in t
    ensures FormPath(t, a) == Some(t)
    decreases |t|
  {
    if t != "" {
      assert forall c :: c in t[1..] ==> c in t;
      PrintsUnclosed(t[1..], a);
      assert [t[0]] + t[1..] == t;
    }
  }

  // -------------------------------------------------- the newline Python takes

  lemma {:induction false} TakesNewlineVar(ts: seq<Token>, s: string, k: nat, u: Values)
    requires Fills(ts, u) && Render(ts, u) == Some(s)
    requires ts != [] && ts[0].Var? && |u[ts[0].name]| <= k <= |s| + 1
    ensures MatchVar(ts, s + "\n", k, true).Some?
    decreases |ts|, k
  {
    var v := u[ts[0].name];
    assert ts[0].name in Names(ts);
    if k == |v| {
      var rest := Render(ts[1..], u).value;
      TakesNewline(ts[1..], rest, u);
      assert s == v + rest;
      Associative(v, rest, "\n");
      assert (v + (rest + "\n"))[k..] == rest + "\n";
    } else {
      TakesNewlineVar(ts, s, k - 1, u);
    }
  }

  /** Python also matches what was printed with a newline behind it. */
  lemma {:induction false} TakesNewline(ts: seq<Token>, s: string, u: Values)
    requires Fills(ts, u) && Render(ts, u) == Some(s)
    ensures Match(ts, s + "\n", true).Some?
    decreases |ts|, |s| + 2
  {
    if ts == [] {
      assert "" + "\n" == "\n";
    } else if ts[0].Lit? {
      var rest := Render(ts[1..], u).value;
      TakesNewline(ts[1..], rest, u);
      assert s + "\n" == [ts[0].c] + (rest + "\n");
      LiteralAt(ts[0].c, rest + "\n");
    } else {
      var v := u[ts[0].name];
      assert ts[0].name in Names(ts);
      var rest := Render(ts[1..], u).value;
      var t := s + "\n";
      var k := IndexOf(t, '/');
      assert forall m :: 0 <= m < |v| ==> t[m] == v[m] && v[m] in v;
      TakesNewlineVar(ts, s, k, u);
    }
  }

  /** TypeScript does not, unless a placeholder takes it as part of its value. */
  lemma StrictTakesNoNewline(ts: seq<Token>)
    requires Names(ts) == {} && forall i :: 0 <= i < |ts| ==> ts[i].Lit?
    ensures Match(ts, Spell(ts), false) == Some(map[]) && Match(ts, Spell(ts) + "\n", false).None?
  {
    MatchesItsText(ts, "");
    MatchesItsText(ts, "\n");
    assert Spell(ts) + "" == Spell(ts);
  }

  lemma {:induction false} MatchesItsText(ts: seq<Token>, more: string)
    requires forall i :: 0 <= i < |ts| ==> ts[i].Lit?
    ensures Match(ts, Spell(ts) + more, false) == if more == "" then Some(map[]) else None
  {
    if ts == [] {
      assert "" + more == more;
    } else {
      MatchesItsText(ts[1..], more);
      Associative([ts[0].c], Spell(ts[1..]), more);
      LiteralAt(ts[0].c, Spell(ts[1..]) + more);
    }
  }
}
