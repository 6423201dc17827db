/** Where a comment goes, in terms of the text around it, and what becomes of those that find
    no place. */
module CommentPlaces {
  import opened Collections
  import opened Wrappers
  import opened Text
  import opened Comments

  // ----------------------------------------------------------------- the line

  lemma EndIsNewline(u: string)
    ensures EndOfLine(u) < |u| <==> '\n' in u
    ensures EndOfLine(u) < |u| ==> u[EndOfLine(u)] == '\n' && '\n' !in u[..EndOfLine(u)]
  {
    EndOfLineIs(u);
    assert u[..|u|] == u;
  }

  /** Seen from the start of the text. */
  lemma NewlineBehind(t: string, p: nat, u: string)
    requires p <= |t| && u == t[p..] && EndOfLine(u) < |u|
    ensures t[p + EndOfLine(u)] == '\n' && '\n' !in t[p..p + EndOfLine(u)]
  {
    EndIsNewline(u);
    assert u[..EndOfLine(u)] == t[p..p + EndOfLine(u)];
  }

  lemma BehindLineAt(t: string, p: nat, u: string)
    requires p <= |t| && u == t[p..]
    ensures BehindLine(t, p) == if EndOfLine(u) < |u| then p + EndOfLine(u) + 1 else p
  {}

  /** Behind the newline that ends the line `p` is on, if there is one. */
  lemma BehindLineIs(t: string, p: nat)
    requires p <= |t|
    ensures var q := BehindLine(t, p);
      if '\n' in t[p..] then NextLine(t, p, q) && Newlines(t, q) == Newlines(t, p) + 1 else q == p
  {
    var u := t[p..];
    EndIsNewline(u);
    BehindLineAt(t, p, u);
    if EndOfLine(u) < |u| {
      NewlineBehind(t, p, u);
      NextLineAt(t, p, EndOfLine(u));
    }
  }

  /** `q` is where the line after the one `p` is on starts. */
  predicate NextLine(t: string, p: nat, q: nat) {
    p < q <= |t| && t[q - 1] == '\n' && '\n' !in t[p..q - 1]
  }

  lemma NextLineAt(t: string, p: nat, e: nat)
    requires p + e < |t| && t[p + e] == '\n' && '\n' !in t[p..p + e]
    ensures NextLine(t, p, p + e + 1) && Newlines(t, p + e + 1) == Newlines(t, p) + 1
  {
    NewlinesAlong(t, p, p + e);
  }

  lemma {:induction false} NewlinesAlong(t: string, p: nat, q: nat)
    requires p <= q <= |t| && '\n' !in t[p..q]
    ensures Newlines(t, q) == Newlines(t, p)
  {
    if p < q {
      assert t[q - 1] == t[p..q][q - 1 - p];
      assert forall c :: c in t[p..q - 1] ==> c in t[p..q];
      NewlinesAlong(t, p, q - 1);
    }
  }

  // ---------------------------------------------------------------- the place

  predicate OccursAt(t: string, s: string, p: nat) {
    p <= |t| && s <= t[p..]
  }

  ghost predicate FirstAt(t: string, s: string, p: nat) {
    OccursAt(t, s, p) && forall j: nat :: j < p ==> !OccursAt(t, s, j)
  }

  ghost predicate Occurs(t: string, s: Option<string>) {
    s.Some? && exists p: nat :: OccursAt(t, s.value, p)
  }

  lemma FindsFirst(t: string, s: string, p: nat)
    requires FirstAt(t, s, p)
    ensures FindFrom(t, s, 0) == Some(p)
  {
    var r := FindFrom(t, s, 0);
    if r.Some? {
      assert OccursAt(t, s, r.value);
    }
  }

  lemma FindsNone(t: string, s: Option<string>)
    requires !Occurs(t, s)
    ensures s.Some? ==> FindFrom(t, s.value, 0).None?
  {
    if s.Some? && FindFrom(t, s.value, 0).Some? {
      assert OccursAt(t, s.value, FindFrom(t, s.value, 0).value);
    }
  }

  /** The line before it decides, if it occurs anywhere: the comment goes behind the line of
      its first occurrence, or before that occurrence if no newline follows. */
  lemma PlacedAfterLine(lev: Metric, t: string, c: Comment, p: nat)
    requires c.before.Some? && FirstAt(t, c.before.value, p)
    ensures var q := Place(lev, t, c);
      q.Some? && if '\n' in t[p..] then NextLine(t, p, q.value) else q.value == p
  {
    FindsFirst(t, c.before.value, p);
    BehindLineIs(t, p);
  }

  /** Else the line after it: the comment goes before its first occurrence. */
  lemma PlacedBeforeLine(lev: Metric, t: string, c: Comment, p: nat)
    requires !Occurs(t, c.before) && c.after.Some? && FirstAt(t, c.after.value, p)
    ensures Place(lev, t, c) == Some(p)
  {
    FindsNone(t, c.before);
    FindsFirst(t, c.after.value, p);
  }

  /** Within this distance both neighbours of a window's middle line are like their anchors. */
  ghost predicate Near(lev: Metric, ls: seq<(nat, string)>, c: Comment, w: nat, dist: nat) {
    && w + 2 < |ls|
    && (c.before.Some? ==> lev(Trim(c.before.value), Trim(ls[w].1)) <= dist)
    && (c.after.Some? ==> lev(Trim(c.after.value), Trim(ls[w + 2].1)) <= dist)
  }

  lemma CostIsNear(lev: Metric, ls: seq<(nat, string)>, c: Comment, w: nat, dist: nat)
    requires w + 2 < |ls|
    ensures Near(lev, ls, c, w, dist) <==> Cost(lev, ls, c.after, c.before, w) <= dist
  {}

  /** Else the middle of the first window that is near within the least distance, up to six. */
  lemma PlacedFuzzily(lev: Metric, t: string, c: Comment, w: nat, dist: nat)
    requires !Occurs(t, c.before) && !Occurs(t, c.after) && (c.before.Some? || c.after.Some?)
    requires var ls := Offsets(Lines(t), 0);
      && Near(lev, ls, c, w, dist) && dist <= 6
      && (forall v: nat, d: nat :: d < dist ==> !Near(lev, ls, c, v, d))
      && (forall v: nat :: v < w ==> !Near(lev, ls, c, v, dist))
    ensures Place(lev, t, c) == Some(Offsets(Lines(t), 0)[w + 1].0)
  {
    FindsNone(t, c.before);
    FindsNone(t, c.after);
    var ls := Offsets(Lines(t), 0);
    CostIsNear(lev, ls, c, w, dist);
    var cost := Cost(lev, ls, c.after, c.before, w);
    CostIsNear(lev, ls, c, w, cost);
    assert cost == dist;
    forall v: nat | v + 2 < |ls|
      ensures var d := Cost(lev, ls, c.after, c.before, v); d >= dist && (v < w ==> d > dist)
    {
      var d := Cost(lev, ls, c.after, c.before, v);
      CostIsNear(lev, ls, c, v, d);
      CostIsNear(lev, ls, c, v, dist);
    }
    FuzzyIsBest(lev, ls, c.after, c.before, w);
  }

  /** Else nowhere. */
  lemma NotPlaced(lev: Metric, t: string, c: Comment)
    requires !Occurs(t, c.before) && !Occurs(t, c.after)
    requires (c.before.Some? || c.after.Some?) ==> forall w: nat :: !Near(lev, Offsets(Lines(t), 0), c, w, 6)
    ensures Place(lev, t, c).None?
  {
    FindsNone(t, c.before);
    FindsNone(t, c.after);
    var ls := Offsets(Lines(t), 0);
    if Fuzzy(lev, ls, c.after, c.before).Some? {
      var w := FuzzyWindow(lev, ls, c.after, c.before);
      CostIsNear(lev, ls, c, w, 6);
    }
  }

  // ---------------------------------------------------------------- the passes

  lemma {:induction false} PassIdle(lev: Metric, t: string, cs: seq<Comment>)
    requires PassOver(lev, t, cs).inserted == []
    ensures PassOver(lev, t, cs).target == t && PassOver(lev, t, cs).leftover == cs
    ensures forall c :: c in cs ==> Place(lev, t, c).None?
    decreases |cs|
  {
    if cs != [] {
      var p := Place(lev, t, cs[0]);
      if p.None? {
        PassIdle(lev, t, cs[1..]);
        assert cs == [cs[0]] + cs[1..];
      }
    }
  }

  /** Comments without a place are tried once more in the text with all the others: if none
      was placed then, none of those left over has a place in the result. */
  lemma LeftoversHaveNoPlace(lev: Metric, t: string, cs: seq<Comment>, c: Comment)
    requires Both(lev, t, cs).inserted == PassOver(lev, t, cs).inserted && c in Both(lev, t, cs).leftover
    ensures Place(lev, Both(lev, t, cs).target, c).None?
  {
    var p := PassOver(lev, t, cs);
    var q := PassOver(lev, p.target, p.leftover);
    assert p.inserted + q.inserted == p.inserted;
    assert |q.inserted| == 0;
    PassIdle(lev, p.target, p.leftover);
  }

  /** One that had no place in the first pass but has one in the text as it meets it the second
      time is placed there. */
  lemma SecondChance(lev: Metric, t: string, c: Comment, others: seq<Comment>)
    requires var p := PassOver(lev, t, [c] + others);
      Place(lev, t, c).None? && p.leftover == [c] && Place(lev, p.target, c).Some?
    ensures Both(lev, t, [c] + others).leftover == []
    ensures var p := PassOver(lev, t, [c] + others);
      Both(lev, t, [c] + others).target == Inserted(p.target, Place(lev, p.target, c).value, c.text)
  {
    var p := PassOver(lev, t, [c] + others);
    assert [c][1..] == [];
    assert PassOver(lev, p.target, [c]) == Pass(Inserted(p.target, Place(lev, p.target, c).value, c.text),
      [Insertion(Place(lev, p.target, c).value, c.text)] + [], []);
  }

  /** `a` without changing its order is part of `b`. */
  predicate PartOf<T(==)>(a: seq<T>, b: seq<T>)
    decreases |b|
  {
    a == [] || (b != [] && ((a[0] == b[0] && PartOf(a[1..], b[1..])) || PartOf(a, b[1..])))
  }

  /** A pass takes the comments in order. */
  lemma {:induction false} PassInOrder(lev: Metric, t: string, cs: seq<Comment>)
    ensures PartOf(InsertedTexts(PassOver(lev, t, cs).inserted), Texts(cs))
    ensures PartOf(PassOver(lev, t, cs).leftover, cs)
    decreases |cs|
  {
    if cs != [] {
      var p := Place(lev, t, cs[0]);
      var rest := PassOver(lev, if p.Some? then Inserted(t, p.value, cs[0].text) else t, cs[1..]);
      PassInOrder(lev, if p.Some? then Inserted(t, p.value, cs[0].text) else t, cs[1..]);
      assert Texts(cs)[1..] == Texts(cs[1..]);
      if p.Some? {
        assert InsertedTexts([Insertion(p.value, cs[0].text)] + rest.inserted)[1..] == InsertedTexts(rest.inserted);
      } else {
        assert ([cs[0]] + rest.leftover)[1..] == rest.leftover;
      }
    }
  }
}
