/** Putting references back in place of values, and why expanding them again gives the
    original text. */
module ReverseTemplate {
  import opened Collections
  import opened Wrappers
  import opened Template

  // ------------------------------------------------------ text replacement

  /** `str::replace`: leftmost occurrences, none overlapping another; an empty pattern
      matches before every character and at the end. */
  function Replace(s: string, v: string, w: string): string
    decreases |s|
  {
    if v == "" then (if s == "" then w else w + [s[0]] + Replace(s[1..], v, w))
    else if s == "" then ""
    else if v <= s then w + Replace(s[|v|..], v, w)
    else [s[0]] + Replace(s[1..], v, w)
  }

  function Utf8Len(s: string): nat {
    if s == "" then 0
    else
      var c := s[0] as int;
      (if c < 0x80 then 1 else if c < 0x800 then 2 else if c < 0x10000 then 3 else 4) + Utf8Len(s[1..])
  }

  type Item = (ReadOutput, string)

  /** The loop of `reverse_template_config`, for one order of the values found. */
  function ReverseAll(text: string, items: seq<Item>, minLength: nat): string
    decreases |items|
  {
    if items == [] then text
    else if Utf8Len(items[0].1) < minLength then ReverseAll(text, items[1..], minLength)
    else ReverseAll(Replace(text, items[0].1, items[0].0.IntoString()), items[1..], minLength)
  }

  // ------------------------------------------------------------- overlapping

  /** `v`, laid with its start at position `d` of `r`, agrees with `r` wherever both are. */
  ghost predicate Agree(v: string, r: string, d: int) {
    forall i :: 0 <= i < |r| && d <= i < d + |v| ==> r[i] == v[i - d]
  }

  /** Some text shows both `v` and `r`, sharing at least one character. */
  ghost predicate Overlaps(v: string, r: string) {
    exists d :: -|v| < d < |r| && Agree(v, r, d)
  }

  // ------------------------------------------------------------------ tokens

  /** A text while it is being reversed: characters of the raw text and references. */
  datatype Token = Lit(c: char) | Ref(r: ReadOutput, text: string) {
    function Text(): string {
      if Lit? then [c] else text
    }

    function Value(get: Readable): string {
      if Lit? then [c] else if get(r).Some? then get(r).value else ""
    }

    /** A reference the scanner will find again, with a value to read. */
    ghost predicate Good(get: Readable) {
      Ref? ==> r.WellFormed() && text == r.IntoString() && get(r).Some?
    }
  }

  function Render(ts: seq<Token>): string {
    if ts == [] then "" else ts[0].Text() + Render(ts[1..])
  }

  /** The text with every reference standing for its value. */
  function Meaning(get: Readable, ts: seq<Token>): string {
    if ts == [] then "" else ts[0].Value(get) + Meaning(get, ts[1..])
  }

  predicate Spells(ts: seq<Token>, v: string) {
    |v| <= |ts| && forall i :: 0 <= i < |v| ==> ts[i] == Lit(v[i])
  }

  function ReplaceTokens(ts: seq<Token>, v: string, r: Token): seq<Token>
    requires v != ""
    decreases |ts|
  {
    if ts == [] then []
    else if Spells(ts, v) then [r] + ReplaceTokens(ts[|v|..], v, r)
    else [ts[0]] + ReplaceTokens(ts[1..], v, r)
  }

  ghost predicate Apart(ts: seq<Token>, v: string) {
    forall i :: 0 <= i < |ts| && ts[i].Ref? ==> ts[i].text != "" && !Overlaps(v, ts[i].text)
  }

  lemma {:induction false} RenderAppend(a: seq<Token>, b: seq<Token>)
    ensures Render(a + b) == Render(a) + Render(b)
  {
    if a == [] {
      assert a + b == b;
    } else {
      RenderAppend(a[1..], b);
      assert (a + b)[1..] == a[1..] + b;
      Associative(a[0].Text(), Render(a[1..]), Render(b));
    }
  }

  /** A text that starts with `p` and then `s` also starts with `v`, which is longer than `p`. */
  lemma ReachingOverlaps(v: string, p: string, s: string, tail: string)
    requires p < v && s != "" && v <= p + (s + tail)
    ensures Overlaps(v, s)
  {
    var d: int := 0 - |p|;
    forall i | 0 <= i < |s| && d <= i < d + |v| ensures s[i] == v[i - d] {
      assert (p + (s + tail))[i + |p|] == s[i];
    }
    assert Agree(v, s, d);
  }

  /** A value that stays apart from all references occurs at the start of the text only if
      the text starts with literal characters spelling it. */
  lemma {:induction false} PrefixIsSpelled(ts: seq<Token>, v: string, done: nat)
    requires done <= |v| && done <= |ts| && Spells(ts, v[..done])
    requires Apart(ts, v) && v <= Render(ts)
    ensures Spells(ts, v)
    decreases |v| - done
  {
    if done < |v| {
      var lits, rest := ts[..done], ts[done..];
      assert ts == lits + rest;
      RenderAppend(lits, rest);
      RenderLiterals(lits, v[..done]);
      assert Render(ts)[done] == v[done];
      RenderStart(rest);
      if ts[done].Ref? {
        ReachingOverlaps(v, v[..done], ts[done].text, Render(rest[1..]));
      } else {
        PrefixIsSpelled(ts, v, done + 1);
      }
    }
  }

  lemma {:induction false} RenderLiterals(ts: seq<Token>, v: string)
    requires |ts| == |v| && Spells(ts, v)
    ensures Render(ts) == v
  {
    if ts != [] {
      RenderLiterals(ts[1..], v[1..]);
    }
  }

  lemma NotInside(s: string, j: nat, rest: string, v: string)
    requires v != "" && j < |s| && !Overlaps(v, s)
    ensures !(v <= s[j..] + rest)
  {
    var t := s[j..] + rest;
    if v <= t {
      assert forall i :: 0 <= i < |s| && j <= i < j + |v| ==> s[i] == t[i - j] == v[i - j];
      assert Agree(v, s, j);
    }
  }

  lemma ReplaceStep(c: char, t: string, v: string, w: string)
    requires v != "" && !(v <= [c] + t)
    ensures Replace([c] + t, v, w) == [c] + Replace(t, v, w)
  {
    assert ([c] + t)[1..] == t;
  }

  /** Replacing passes over a reference it stays apart from. */
  lemma {:induction false} ReplaceSkips(s: string, j: nat, rest: string, v: string, w: string)
    requires v != "" && j <= |s| && !Overlaps(v, s)
    ensures Replace(s[j..] + rest, v, w) == s[j..] + Replace(rest, v, w)
    decreases |s| - j
  {
    if j == |s| {
      assert s[j..] + rest == rest;
    } else {
      NotInside(s, j, rest, v);
      var tail, r := s[j + 1..], Replace(rest, v, w);
      assert s[j..] == [s[j]] + tail;
      Associative([s[j]], tail, rest);
      ReplaceStep(s[j], tail + rest, v, w);
      ReplaceSkips(s, j + 1, rest, v, w);
      Associative([s[j]], tail, r);
    }
  }

  /** Replacing text is replacing literal tokens, as long as the value stays apart from
      the references already there. */
  lemma {:induction false} ReplaceIsOnTokens(ts: seq<Token>, v: string, r: Token)
    requires v != "" && Apart(ts, v) && r.Ref?
    ensures Replace(Render(ts), v, r.text) == Render(ReplaceTokens(ts, v, r))
    decreases |ts|
  {
    var w := r.text;
    if ts == [] {
    } else if Spells(ts, v) {
      var a, b := ts[..|v|], ts[|v|..];
      assert ts == a + b;
      RenderAppend(a, b);
      RenderLiterals(a, v);
      ReplaceIsOnTokens(b, v, r);
      assert Render(ts)[|v|..] == Render(b);
      assert ([r] + ReplaceTokens(b, v, r))[1..] == ReplaceTokens(b, v, r);
    } else {
      var rest := ts[1..];
      assert forall i :: 0 <= i < |rest| ==> rest[i] == ts[i + 1];
      ReplaceIsOnTokens(rest, v, r);
      assert ([ts[0]] + ReplaceTokens(rest, v, r))[1..] == ReplaceTokens(rest, v, r);
      if v <= Render(ts) {
        PrefixIsSpelled(ts, v, 0);
      }
      match ts[0]
      case Lit(c) => assert Render(ts)[1..] == Render(rest);
      case Ref(_, s) =>
        ReplaceSkips(s, 0, Render(rest), v, w);
        assert s[0..] == s;
    }
  }

  lemma {:induction false} ReplaceKeepsMeaning(get: Readable, ts: seq<Token>, v: string, r: Token)
    requires v != "" && r.Ref? && get(r.r) == Some(v)
    ensures Meaning(get, ReplaceTokens(ts, v, r)) == Meaning(get, ts)
    decreases |ts|
  {
    if ts == [] {
    } else if Spells(ts, v) {
      ReplaceKeepsMeaning(get, ts[|v|..], v, r);
      MeaningOfLiterals(get, ts, v);
    } else {
      ReplaceKeepsMeaning(get, ts[1..], v, r);
    }
  }

  lemma {:induction false} MeaningOfLiterals(get: Readable, ts: seq<Token>, v: string)
    requires Spells(ts, v)
    ensures Meaning(get, ts) == v + Meaning(get, ts[|v|..])
  {
    if v != "" {
      MeaningOfLiterals(get, ts[1..], v[1..]);
      assert ts[1..][|v[1..]|..] == ts[|v|..];
    } else {
      assert ts[0..] == ts;
    }
  }

  lemma {:induction false} ReplaceAddsOnly(ts: seq<Token>, v: string, r: Token)
    requires v != ""
    ensures forall t :: t in ReplaceTokens(ts, v, r) && t.Ref? ==> t == r || t in ts
    decreases |ts|
  {
    if ts != [] {
      if Spells(ts, v) {
        ReplaceAddsOnly(ts[|v|..], v, r);
      } else {
        ReplaceAddsOnly(ts[1..], v, r);
      }
    }
  }

  // --------------------------------------------------------------- expanding

  ghost predicate Contains(s: string, p: string) {
    exists i :: 0 <= i <= |s| && p <= s[i..]
  }

  lemma ContainsAfter(head: string, s: string, p: string)
    requires Contains(s, p)
    ensures Contains(head + s, p)
  {
    var i :| 0 <= i <= |s| && p <= s[i..];
    assert (head + s)[|head| + i..] == s[i..];
  }

  /** The mark has no border, so no mark straddles the start of a reference: in a text
      whose meaning is free of marks, the scanner finds exactly the references. */
  lemma {:induction false} ExpandIsMeaning(get: Readable, ts: seq<Token>)
    requires !Contains(Meaning(get, ts), MARK)
    requires forall t :: t in ts ==> t.Good(get)
    ensures Expand(get, Render(ts)).body == Meaning(get, ts)
    ensures Expand(get, Render(ts)).missing == {}
    decreases |ts|
  {
    if ts != [] {
      var rest, s := ts[1..], Render(ts);
      if Contains(Meaning(get, rest), MARK) {
        ContainsAfter(ts[0].Value(get), Meaning(get, rest), MARK);
        assert false;
      }
      ExpandIsMeaning(get, rest);
      match ts[0]
      case Lit(c) =>
        if MARK <= s {
          assert forall t :: t in ts ==> t.Good(get) && (t.Ref? ==> MARK <= t.r.IntoString());
          MarkInMeaning(get, ts);
          assert false;
        }
        assert s[1..] == Render(rest);
      case Ref(r, text) =>
        assert ts[0].Good(get);
        MatchAtIff(s, r);
        assert s[|text|..] == Render(rest);
    }
  }

  lemma MarkInMeaning(get: Readable, ts: seq<Token>)
    requires ts != [] && ts[0].Lit? && MARK <= Render(ts)
    requires forall t :: t in ts && t.Ref? ==> MARK <= t.text
    ensures Contains(Meaning(get, ts), MARK)
  {
    MarkIsSpelled(ts, 0);
    MeaningOfLiterals(get, ts, MARK);
    assert Meaning(get, ts)[0..] == Meaning(get, ts);
  }

  lemma {:induction false} MarkIsSpelled(ts: seq<Token>, done: nat)
    requires done <= 6 && done <= |ts| && Spells(ts, MARK[..done])
    requires ts != [] && ts[0].Lit? && MARK <= Render(ts)
    requires forall t :: t in ts && t.Ref? ==> MARK <= t.text
    ensures Spells(ts, MARK)
    decreases 6 - done
  {
    if done < 6 {
      NextOfMark(ts, done);
      MarkIsSpelled(ts, done + 1);
    }
  }

  /** No reference stands inside of the mark, as none of its later characters is its first. */
  lemma NextOfMark(ts: seq<Token>, done: nat)
    requires done < 6 && done <= |ts| && Spells(ts, MARK[..done])
    requires ts != [] && ts[0].Lit? && MARK <= Render(ts)
    requires forall t :: t in ts && t.Ref? ==> MARK <= t.text
    ensures done < |ts| && ts[done] == Lit(MARK[done])
  {
    var lits, rest := ts[..done], ts[done..];
    SplitAt(ts, done);
    RenderAppend(lits, rest);
    RenderLiterals(lits, MARK[..done]);
    assert Render(rest)[0] == Render(ts)[done] == MARK[done];
    RenderStart(rest);
    assert rest[0] == ts[done] && rest[0] in ts;
    assert done > 0 ==> MARK[done] != MARK[0];
  }

  lemma RenderStart(ts: seq<Token>)
    requires Render(ts) != ""
    ensures ts != [] && (ts[0].Lit? ==> Render(ts)[0] == ts[0].c)
    ensures ts[0].Ref? && MARK <= ts[0].text ==> Render(ts)[0] == MARK[0]
  {}

  // ---------------------------------------------------------------- main result

  /** An item that `reverse_template_config` does not skip. */
  predicate Selected(x: Item, minLength: nat) {
    Utf8Len(x.1) >= minLength
  }

  /** The values found: non-empty, each the value of its own reference, and none able to
      overlap the text of a reference that was put in before it. */
  ghost predicate Reversible(get: Readable, items: seq<Item>, minLength: nat) {
    && (forall x :: x in items && Selected(x, minLength) ==> x.1 != "" && x.0.WellFormed() && get(x.0) == Some(x.1))
    && (forall i, j :: 0 <= i < j < |items| && Selected(items[i], minLength) && Selected(items[j], minLength)
          ==> !Overlaps(items[j].1, items[i].0.IntoString()))
  }

  lemma {:induction false} ReverseAllOnTokens(get: Readable, ts: seq<Token>, items: seq<Item>, minLength: nat)
    returns (us: seq<Token>)
    requires Reversible(get, items, minLength)
    requires forall t :: t in ts ==> t.Good(get)
    requires forall x :: x in items && Selected(x, minLength) ==> Apart(ts, x.1)
    ensures ReverseAll(Render(ts), items, minLength) == Render(us)
    ensures Meaning(get, us) == Meaning(get, ts)
    ensures forall t :: t in us ==> t.Good(get)
    decreases |items|
  {
    if items == [] {
      return ts;
    }
    var rest := items[1..];
    assert forall i :: 0 <= i < |rest| ==> rest[i] == items[i + 1];
    assert Reversible(get, rest, minLength);
    if Selected(items[0], minLength) {
      var v, r := items[0].1, Ref(items[0].0, items[0].0.IntoString());
      var next := ReplaceTokens(ts, v, r);
      ReplaceIsOnTokens(ts, v, r);
      ReplaceKeepsMeaning(get, ts, v, r);
      ReplaceAddsOnly(ts, v, r);
      forall x | x in rest && Selected(x, minLength) ensures Apart(next, x.1) {
        forall i | 0 <= i < |next| && next[i].Ref? ensures next[i].text != "" && !Overlaps(x.1, next[i].text) {
          assert next[i] in next;
          assert next[i] == r || next[i] in ts;
        }
      }
      us := ReverseAllOnTokens(get, next, rest, minLength);
    } else {
      us := ReverseAllOnTokens(get, ts, rest, minLength);
    }
  }

  function Literals(s: string): (ts: seq<Token>)
    ensures |ts| == |s| && forall i :: 0 <= i < |s| ==> ts[i] == Lit(s[i])
  {
    seq(|s|, i requires 0 <= i < |s| => Lit(s[i]))
  }

  /** In whatever order the values are put back, expanding the result over the same
      outputs gives the raw text again, with nothing missing. */
  lemma ReverseThenExpand(get: Readable, raw: string, items: seq<Item>, minLength: nat)
    requires !Contains(raw, MARK)
    requires Reversible(get, items, minLength)
    ensures Expand(get, ReverseAll(raw, items, minLength)).body == raw
    ensures Expand(get, ReverseAll(raw, items, minLength)).missing == {}
  {
    var ts := Literals(raw);
    RenderLiterals(ts, raw);
    MeaningOfLiterals(get, ts, raw);
    assert Meaning(get, ts) == raw;
    var us := ReverseAllOnTokens(get, ts, items, minLength);
    ExpandIsMeaning(get, us);
  }

  /** In `y + v`, the value `v` first occurs at the end. */
  ghost predicate FirstAtEnd(y: string, v: string) {
    forall i :: 0 <= i < |y| ==> !(v <= y[i..] + v)
  }

  lemma {:induction false} ReplaceAtEnd(y: string, v: string, w: string)
    requires v != "" && FirstAtEnd(y, v)
    ensures Replace(y + v, v, w) == y + w
    decreases |y|
  {
    if y == "" {
      assert y + v == v && v[|v|..] == "" && y + w == w;
      assert w + "" == w;
    } else {
      assert y[0..] == y;
      FrontOf(y, v);
      FrontOf(y, w);
      assert forall i :: 0 <= i < |y[1..]| ==> y[1..][i..] == y[i + 1..];
      ReplaceAtEnd(y[1..], v, w);
      ReplaceStep(y[0], y[1..] + v, v, w);
    }
  }

  lemma FrontOf(y: string, v: string)
    requires y != ""
    ensures y + v == [y[0]] + (y[1..] + v)
  {}

  lemma ReplaceAtStart(v: string, rest: string, w: string)
    requires v != ""
    ensures Replace(v + rest, v, w) == w + Replace(rest, v, w)
  {
    assert (v + rest)[|v|..] == rest;
  }

  /** Two values, both long enough. */
  lemma ReverseTwo(text: string, a: Item, b: Item, minLength: nat)
    requires Selected(a, minLength) && Selected(b, minLength)
    ensures ReverseAll(text, [a, b], minLength) == Replace(Replace(text, a.1, a.0.IntoString()), b.1, b.0.IntoString())
  {
    assert [a, b][1..] == [b];
    assert ReverseAll(text, [a, b], minLength) == ReverseAll(Replace(text, a.1, a.0.IntoString()), [b], minLength);
    ReverseOne(Replace(text, a.1, a.0.IntoString()), b, minLength);
  }

  lemma ReverseOne(text: string, x: Item, minLength: nat)
    ensures ReverseAll(text, [x], minLength) == if Selected(x, minLength) then Replace(text, x.1, x.0.IntoString()) else text
  {
    assert [x][1..] == [];
    assert ReverseAll(Replace(text, x.1, x.0.IntoString()), [], minLength) == Replace(text, x.1, x.0.IntoString());
  }

  /** Without the condition the round trip fails: a value `y + s` overlaps the reference put
      in for `v` if `s` starts that reference.  In the text `y + v` the reference is then cut
      apart, and unless `v` itself starts with `s` what comes back is another text. */
  lemma OverlapBreaksRoundTrip(get: Readable, r: ReadOutput, q: ReadOutput, v: string, y: string, s: string, minLength: nat)
    requires r.WellFormed() && q.WellFormed() && get(r) == Some(v) && get(q) == Some(y + s)
    requires v != "" && s != "" && s <= r.IntoString() && FirstAtEnd(y, v)
    requires Utf8Len(v) >= minLength && Utf8Len(y + s) >= minLength
    ensures Overlaps(y + s, r.IntoString())
    ensures y + s <= Expand(get, ReverseAll(y + v, [(r, v), (q, y + s)], minLength)).body
    ensures !(s <= v) ==> Expand(get, ReverseAll(y + v, [(r, v), (q, y + s)], minLength)).body != y + v
  {
    var text, end := r.IntoString(), r.IntoString()[|s|..];
    PrefixOverlaps(y, s, text);
    ReverseTwo(y + v, (r, v), (q, y + s), minLength);
    ReplaceAtEnd(y, v, text);
    PrefixSplits(s, text);
    Associative(y, s, end);
    ReplaceAtStart(y + s, end, q.IntoString());
    StartsWithValue(get, q, Replace(end, y + s, q.IntoString()));
    StartsAlike(y, s, v);
  }

  lemma PrefixOverlaps(y: string, s: string, text: string)
    requires s != "" && s <= text
    ensures Overlaps(y + s, text)
  {
    assert Agree(y + s, text, -|y|);
  }

  lemma StartsAlike(y: string, s: string, v: string)
    ensures y + s <= y + v <==> s <= v
  {
    assert y + s <= y + v ==> s == (y + v)[|y|..][..|s|];
    assert (y + v)[|y|..] == v;
  }

  lemma StartsWithValue(get: Readable, r: ReadOutput, rest: string)
    requires r.WellFormed() && get(r).Some?
    ensures get(r).value <= Expand(get, r.IntoString() + rest).body
  {
    var u := r.IntoString() + rest;
    MatchAtIff(u, r);
    assert Expand(get, u) == Append(Reference(get, r), Expand(get, u[|r.IntoString()|..]));
  }

  // -------------------------------------------------------- the length limit

  /** The documentation of `reverse_template_config`: only values longer than the limit. */
  function ReverseLonger(text: string, items: seq<Item>, minLength: nat): string
    decreases |items|
  {
    if items == [] then text
    else if Utf8Len(items[0].1) > minLength
    then ReverseLonger(Replace(text, items[0].1, items[0].0.IntoString()), items[1..], minLength)
    else ReverseLonger(text, items[1..], minLength)
  }

  /** The code replaces values of exactly that length, too: its limit is one lower. */
  lemma {:induction false} LimitIsInclusive(text: string, items: seq<Item>, minLength: nat)
    requires minLength > 0
    ensures ReverseAll(text, items, minLength) == ReverseLonger(text, items, minLength - 1)
    decreases |items|
  {
    if items != [] {
      LimitIsInclusive(
        if Selected(items[0], minLength) then Replace(text, items[0].1, items[0].0.IntoString()) else text,
        items[1..], minLength);
    }
  }

  /** The two agree on all texts if and only if the value is not of exactly that length, or
      is the very text of its reference. */
  lemma LimitAgreesIff(x: Item, minLength: nat)
    ensures (forall text :: ReverseAll(text, [x], minLength) == ReverseLonger(text, [x], minLength))
       <==> Utf8Len(x.1) != minLength || x.1 == x.0.IntoString()
  {
    var v, w := x.1, x.0.IntoString();
    forall text
      ensures ReverseAll(text, [x], minLength) == (if Utf8Len(v) >= minLength then Replace(text, v, w) else text)
      ensures ReverseLonger(text, [x], minLength) == (if Utf8Len(v) > minLength then Replace(text, v, w) else text)
    {
      ReverseOne(text, x, minLength);
      LongerOne(text, x, minLength);
    }
    if Utf8Len(v) == minLength && v != w {
      ReplaceWhole(v, w);
      assert ReverseAll(v, [x], minLength) != ReverseLonger(v, [x], minLength);
    } else if Utf8Len(v) == minLength {
      forall text ensures Replace(text, v, w) == text {
        ReplaceItself(text, v);
      }
    }
  }

  lemma LongerOne(text: string, x: Item, minLength: nat)
    ensures ReverseLonger(text, [x], minLength) ==
            if Utf8Len(x.1) > minLength then Replace(text, x.1, x.0.IntoString()) else text
  {
    assert [x][1..] == [];
    assert ReverseLonger(Replace(text, x.1, x.0.IntoString()), [], minLength) == Replace(text, x.1, x.0.IntoString());
  }

  lemma ReplaceWhole(v: string, w: string)
    ensures Replace(v, v, w) == w
  {
    if v != "" {
      assert v + "" == v && w + "" == w;
      ReplaceAtStart(v, "", w);
    }
  }

  lemma {:induction false} ReplaceItself(s: string, v: string)
    requires v != ""
    ensures Replace(s, v, v) == s
    decreases |s|
  {
    if s != "" {
      if v <= s {
        ReplaceItself(s[|v|..], v);
        PrefixSplits(v, s);
      } else {
        ReplaceItself(s[1..], v);
      }
    }
  }

  // -------------------------------------------------------------------- method

  /** The items are the map's entries, each once. */
  ghost predicate Lists(items: seq<Item>, found: map<ReadOutput, string>) {
    && (forall x :: x in items <==> x.0 in found && found[x.0] == x.1)
    && (forall i, j :: 0 <= i < j < |items| ==> items[i] != items[j])
  }

  /** `reverse_template_config`; `order` is the one in which the map happened to be visited. */
  method ReverseTemplateConfig(get: Readable, templated: string, raw: string, minLength: nat)
    returns (result: string, ghost order: seq<Item>)
    ensures Lists(order, Expand(get, templated).found)
    ensures result == ReverseAll(raw, order, minLength)
    ensures !Contains(raw, MARK) && FoundApart(Expand(get, templated).found, minLength) ==>
              Expand(get, result).body == raw && Expand(get, result).missing == {}
  {
    var t := TemplateConfig(get, templated);
    result, order := raw, [];
    var todo := t.found;
    while todo != map[]
      invariant forall r :: r in todo ==> r in t.found && todo[r] == t.found[r]
      invariant Lists(order, t.found - todo.Keys)
      invariant result == ReverseAll(raw, order, minLength)
      decreases todo.Keys
    {
      var r :| r in todo;
      var v := todo[r];
      ReverseAllLast(raw, order, (r, v), minLength);
      order := order + [(r, v)];
      todo := todo - {r};
      if Utf8Len(v) < minLength {
        continue;
      }
      result := Replace(result, v, r.IntoString());
    }
    assert t.found - todo.Keys == t.found;
    if !Contains(raw, MARK) && FoundApart(t.found, minLength) {
      ExpandSplitsReferences(get, templated);
      ReverseThenExpand(get, raw, order, minLength);
    }
  }

  /** The condition of the round trip, in terms of what templating found. */
  ghost predicate FoundApart(found: map<ReadOutput, string>, minLength: nat) {
    && (forall r :: r in found && Utf8Len(found[r]) >= minLength ==> found[r] != "")
    && (forall r, q :: r in found && q in found && r != q && Utf8Len(found[r]) >= minLength && Utf8Len(found[q]) >= minLength
          ==> !Overlaps(found[r], q.IntoString()))
  }

  lemma {:induction false} ReverseAllLast(text: string, items: seq<Item>, x: Item, minLength: nat)
    ensures ReverseAll(text, items + [x], minLength)
         == var s := ReverseAll(text, items, minLength);
            if Selected(x, minLength) then Replace(s, x.1, x.0.IntoString()) else s
    decreases |items|
  {
    if items == [] {
      assert items + [x] == [x];
    } else {
      assert (items + [x])[1..] == items[1..] + [x];
      ReverseAllLast(if Selected(items[0], minLength) then Replace(text, items[0].1, items[0].0.IntoString()) else text,
        items[1..], x, minLength);
    }
  }
}
