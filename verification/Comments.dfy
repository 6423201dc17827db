/** Putting the comments of an old text back into its regenerated form: each comment is
    looked up by the lines that stood around it. */
module Comments {
  import opened Collections
  import opened Wrappers
  import opened Text

  datatype Comment = Comment(text: string, after: Option<string>, before: Option<string>)

  // ------------------------------------------------------------ line offsets

  /** `code_lines`, for the lines that start at `from`. */
  function Offsets(ls: seq<string>, from: nat): (r: seq<(nat, string)>)
    ensures |r| == |ls|
  {
    if ls == [] then [] else [(from, ls[0])] + Offsets(ls[1..], from + |ls[0]| + 1)
  }

  lemma {:induction false} OffsetsNext(ls: seq<string>, l: string, from: nat)
    ensures Offsets(ls + [l], from) == Offsets(ls, from) + [(from + Span(ls), l)]
  {
    if ls == [] {
      assert [] + [l] == [l];
    } else {
      assert (ls + [l])[1..] == ls[1..] + [l];
      OffsetsNext(ls[1..], l, from + |ls[0]| + 1);
    }
  }

  function Span(ls: seq<string>): nat {
    if ls == [] then 0 else |ls[0]| + 1 + Span(ls[1..])
  }

  lemma {:induction false} SpanNext(ls: seq<string>, l: string)
    ensures Span(ls + [l]) == Span(ls) + |l| + 1
  {
    if ls == [] {
      assert [] + [l] == [l];
    } else {
      assert (ls + [l])[1..] == ls[1..] + [l];
      SpanNext(ls[1..], l);
    }
  }

  method CodeLines(target: string) returns (out: seq<(nat, string)>)
    ensures out == Offsets(Lines(target), 0)
  {
    out := [];
    var lines := Lines(target);
    var idx := 0;
    for i := 0 to |lines|
      invariant idx == Span(lines[..i]) && out == Offsets(lines[..i], 0)
    {
      OffsetsNext(lines[..i], lines[i], 0);
      SpanNext(lines[..i], lines[i]);
      assert lines[..i + 1] == lines[..i] + [lines[i]];
      out := out + [(idx, lines[i])];
      idx := idx + |lines[i]| + 1;
    }
    assert lines[..|lines|] == lines;
  }

  /** Where line `i` really starts: behind the `i`-th newline. */
  ghost predicate StartsLine(t: string, i: nat, p: nat) {
    p <= |t| && Newlines(t, p) == i && (p == 0 || t[p - 1] == '\n')
  }

  /** Newlines among the first `p` characters. */
  function Newlines(t: string, p: nat): nat
    requires p <= |t|
  {
    if p == 0 then 0 else Newlines(t, p - 1) + if t[p - 1] == '\n' then 1 else 0
  }

  /** Lines among the first `n` that ended in a carriage return and a newline. */
  function Returns(t: string, n: nat): nat
    decreases |t|
  {
    if n == 0 || t == "" then 0
    else
      var i := EndOfLine(t);
      if i == |t| then 0 else i - |StripReturn(t[..i])| + Returns(t[i + 1..], n - 1)
  }

  lemma {:induction false} NewlinesGrow(t: string, o: nat, p: nat)
    requires o <= p <= |t|
    ensures Newlines(t, o) <= Newlines(t, p)
  {
    if o < p {
      NewlinesGrow(t, o, p - 1);
    }
  }

  lemma {:induction false} NoNewlines(t: string, p: nat)
    requires p <= |t| && '\n' !in t[..p]
    ensures Newlines(t, p) == 0
  {
    if p > 0 {
      assert t[p - 1] == t[..p][p - 1];
      assert forall c :: c in t[..p - 1] ==> c in t[..p];
      NoNewlines(t, p - 1);
    }
  }

  /** Counted from behind the first newline. */
  lemma {:induction false} NewlinesBehind(t: string, i: nat, q: nat)
    requires i + 1 + q <= |t| && t[i] == '\n' && Newlines(t, i) == 0
    ensures Newlines(t, i + 1 + q) == 1 + Newlines(t[i + 1..], q)
  {
    if q > 0 {
      NewlinesBehind(t, i, q - 1);
    }
  }

  /** Where line `k` starts, counted newline by newline. */
  function Start(t: string, k: nat): nat
    decreases k
  {
    if k == 0 then 0
    else
      var i := EndOfLine(t);
      if i == |t| then 0 else i + 1 + Start(t[i + 1..], k - 1)
  }

  lemma LinesBehind(t: string)
    requires |Lines(t)| > 1
    ensures EndOfLine(t) < |t| && Lines(t) == [FirstOf(t)] + Lines(RestOf(t))
  {}

  function FirstOf(t: string): string {
    StripReturn(t[..EndOfLine(t)])
  }

  function RestOf(t: string): string
    requires EndOfLine(t) < |t|
  {
    t[EndOfLine(t) + 1..]
  }

  lemma NothingBeforeEnd(t: string)
    requires EndOfLine(t) < |t|
    ensures t[EndOfLine(t)] == '\n' && Newlines(t, EndOfLine(t)) == 0
  {
    EndOfLineIs(t);
    NoNewlines(t, EndOfLine(t));
  }

  lemma NextStart(t: string, i: nat, k: nat, q: nat)
    requires i < |t| && t[i] == '\n' && Newlines(t, i) == 0 && StartsLine(t[i + 1..], k, q)
    ensures StartsLine(t, k + 1, i + 1 + q)
  {
    NewlinesBehind(t, i, q);
  }

  lemma StartsLater(t: string, k: nat)
    requires EndOfLine(t) < |t| && StartsLine(RestOf(t), k, Start(RestOf(t), k))
    ensures StartsLine(t, k + 1, Start(t, k + 1))
  {
    NothingBeforeEnd(t);
    NextStart(t, EndOfLine(t), k, Start(RestOf(t), k));
  }

  lemma {:induction false} StartsAtStart(t: string, k: nat)
    requires k < |Lines(t)|
    ensures StartsLine(t, k, Start(t, k))
    decreases k
  {
    if k > 0 {
      LinesBehind(t);
      StartsAtStart(RestOf(t), k - 1);
      StartsLater(t, k - 1);
    }
  }

  lemma NextOffset(l: string, ls: seq<string>, from: nat, k: nat)
    requires k < |ls|
    ensures Offsets([l] + ls, from)[k + 1] == Offsets(ls, from + |l| + 1)[k]
  {
    assert ([l] + ls)[1..] == ls;
  }

  lemma NextReturns(t: string, k: nat)
    requires EndOfLine(t) < |t|
    ensures Returns(t, k + 1) == EndOfLine(t) - |FirstOf(t)| + Returns(RestOf(t), k)
    ensures Start(t, k + 1) == EndOfLine(t) + 1 + Start(RestOf(t), k)
  {}

  /** The offset of a line falls short of where it starts by one for each carriage return
      dropped before it. */
  lemma {:induction false} OffsetsDrift(t: string, from: nat, k: nat)
    requires k < |Lines(t)|
    ensures Offsets(Lines(t), from)[k].0 + Returns(t, k) == from + Start(t, k)
    decreases k
  {
    if k > 0 {
      LinesBehind(t);
      NextOffset(FirstOf(t), Lines(RestOf(t)), from, k - 1);
      NextReturns(t, k - 1);
      OffsetsDrift(RestOf(t), from + |FirstOf(t)| + 1, k - 1);
    }
  }

  /** The offset of a line is its start just when no line before it ended in a carriage
      return and a newline. */
  lemma OffsetIsStartIff(t: string, k: nat)
    requires k < |Lines(t)|
    ensures StartsLine(t, k, Offsets(Lines(t), 0)[k].0) <==> Returns(t, k) == 0
    ensures Offsets(Lines(t), 0)[k].0 <= |t|
  {
    OffsetsDrift(t, 0, k);
    StartsAtStart(t, k);
    var o := Offsets(Lines(t), 0)[k].0;
    if StartsLine(t, k, o) {
      OneStart(t, k, o, Start(t, k));
    }
  }

  lemma OneStart(t: string, k: nat, o: nat, p: nat)
    requires StartsLine(t, k, o) && StartsLine(t, k, p) && o <= p
    ensures o == p
  {
    if o < p {
      NewlinesGrow(t, o, p - 1);
    }
  }

  // ------------------------------------------------------------ fuzzy search

  type Metric = (string, string) -> nat

  const MAX_FUZZY_DIST := 6

  function Max(a: nat, b: nat): nat {
    if a < b then b else a
  }

  /** How far the neighbours of the middle line of window `w` are from the anchors. */
  function Cost(lev: Metric, ls: seq<(nat, string)>, after: Option<string>, before: Option<string>, w: nat): nat
    requires w + 2 < |ls|
  {
    var b := if before.Some? then lev(Trim(before.value), Trim(ls[w].1)) else 0;
    var a := if after.Some? then lev(Trim(after.value), Trim(ls[w + 2].1)) else 0;
    Max(a, b)
  }

  /** No window of cost less than `dist`, nor of cost `dist` before `w`. */
  ghost predicate NoneBefore(lev: Metric, ls: seq<(nat, string)>, after: Option<string>, before: Option<string>,
                             dist: nat, w: nat)
  {
    forall v: nat :: v + 2 < |ls| ==>
      var c := Cost(lev, ls, after, before, v);
      c >= dist && (v < w ==> c > dist)
  }

  /** The earliest window of least cost, within the limit. */
  ghost predicate Best(lev: Metric, ls: seq<(nat, string)>, after: Option<string>, before: Option<string>, w: nat) {
    && w + 2 < |ls|
    && Cost(lev, ls, after, before, w) <= MAX_FUZZY_DIST
    && NoneBefore(lev, ls, after, before, Cost(lev, ls, after, before, w), w)
  }

  ghost function Fuzzy(lev: Metric, ls: seq<(nat, string)>, after: Option<string>, before: Option<string>): Option<nat> {
    if after.None? && before.None? then None
    else if exists w: nat :: Best(lev, ls, after, before, w) then
      var w: nat :| Best(lev, ls, after, before, w);
      Some(ls[w + 1].0)
    else None
  }

  lemma BestUnique(lev: Metric, ls: seq<(nat, string)>, after: Option<string>, before: Option<string>, v: nat, w: nat)
    requires Best(lev, ls, after, before, v) && Best(lev, ls, after, before, w)
    ensures v == w
  {}

  lemma FuzzyIsBest(lev: Metric, ls: seq<(nat, string)>, after: Option<string>, before: Option<string>, w: nat)
    requires Best(lev, ls, after, before, w) && (after.Some? || before.Some?)
    ensures Fuzzy(lev, ls, after, before) == Some(ls[w + 1].0)
  {
    var v: nat :| Best(lev, ls, after, before, v) && Fuzzy(lev, ls, after, before) == Some(ls[v + 1].0);
    BestUnique(lev, ls, after, before, v, w);
  }

  lemma FuzzyWindow(lev: Metric, ls: seq<(nat, string)>, after: Option<string>, before: Option<string>) returns (w: nat)
    requires Fuzzy(lev, ls, after, before).Some?
    ensures Best(lev, ls, after, before, w) && Fuzzy(lev, ls, after, before).value == ls[w + 1].0
  {
    w :| Best(lev, ls, after, before, w) && Fuzzy(lev, ls, after, before) == Some(ls[w + 1].0);
  }

  method FuzzyFind(lev: Metric, lines: seq<(nat, string)>, after: Option<string>, before: Option<string>)
    returns (r: Option<nat>)
    ensures r == Fuzzy(lev, lines, after, before)
    ensures r.Some? <==> (after.Some? || before.Some?)
                         && (exists w: nat :: w + 2 < |lines| && Cost(lev, lines, after, before, w) <= MAX_FUZZY_DIST)
  {
    for dist := 0 to MAX_FUZZY_DIST + 1
      invariant NoneBefore(lev, lines, after, before, dist, 0)
    {
      var w := 0;
      while w + 2 < |lines|
        invariant NoneBefore(lev, lines, after, before, dist, w)
      {
        if before.None? && after.None? {
          return None;
        }
        var near :=
          if before.None? then lev(Trim(after.value), Trim(lines[w + 2].1)) <= dist
          else if after.None? then lev(Trim(before.value), Trim(lines[w].1)) <= dist
          else lev(Trim(after.value), Trim(lines[w + 2].1)) <= dist
               && lev(Trim(before.value), Trim(lines[w].1)) <= dist;
        if near {
          assert Cost(lev, lines, after, before, w) == dist;
          FuzzyIsBest(lev, lines, after, before, w);
          return Some(lines[w + 1].0);
        }
        assert Cost(lev, lines, after, before, w) > dist;
        w := w + 1;
      }
    }
    r := None;
  }

  // -------------------------------------------------------------- insertions

  /** `str::find`. */
  function FindFrom(t: string, s: string, i: nat): (r: Option<nat>)
    requires i <= |t|
    ensures r.Some? ==> i <= r.value <= |t| && s <= t[r.value..] && forall j :: i <= j < r.value ==> !(s <= t[j..])
    ensures r.None? ==> forall j :: i <= j <= |t| ==> !(s <= t[j..])
    decreases |t| - i
  {
    if s <= t[i..] then Some(i) else if i == |t| then None else FindFrom(t, s, i + 1)
  }

  function Inserted(t: string, p: nat, text: string): string
    requires p <= |t|
  {
    t[..p] + (text + "\n") + t[p..]
  }

  /** Behind the line that position `p` is on, if that line ends in a newline. */
  function BehindLine(t: string, p: nat): (q: nat)
    requires p <= |t|
    ensures p <= q <= |t|
  {
    var i := EndOfLine(t[p..]);
    if i < |t| - p then p + i + 1 else p
  }

  class Buffer {
    var text: string

    constructor (text: string)
      ensures this.text == text
    {
      this.text := text;
    }

    method InsertBefore(pos: nat, comment: string)
      requires pos <= |text|
      modifies this
      ensures text == Inserted(old(text), pos, comment)
    {
      text := text[..pos] + (comment + "\n") + text[pos..];
    }

    method InsertAfterLine(pos: nat, comment: string)
      requires pos <= |text|
      modifies this
      ensures text == Inserted(old(text), BehindLine(old(text), pos), comment)
    {
      var off := EndOfLine(text[pos..]);
      if off < |text[pos..]| {
        InsertBefore(pos + off + 1, comment);
      } else {
        InsertBefore(pos, comment);
      }
    }

    /** One comment's turn: behind its exact predecessor, else before its exact successor,
        else where its neighbours fit best. */
    method TryPlace(lev: Metric, c: Comment) returns (placed: bool)
      modifies this
      ensures placed == Place(lev, old(text), c).Some?
      ensures text == if placed then Inserted(old(text), Place(lev, old(text), c).value, c.text) else old(text)
    {
      if c.before.Some? {
        var pos := FindFrom(text, c.before.value, 0);
        if pos.Some? {
          InsertAfterLine(pos.value, c.text);
          return true;
        }
      }
      if c.after.Some? {
        var pos := FindFrom(text, c.after.value, 0);
        if pos.Some? {
          InsertBefore(pos.value, c.text);
          return true;
        }
      }
      var lines := CodeLines(text);
      var pos := FuzzyFind(lev, lines, c.after, c.before);
      FuzzyIsInside(lev, text, c);
      if pos.Some? {
        InsertBefore(pos.value, c.text);
        return true;
      }
      return false;
    }
  }

  lemma OffsetInside(t: string, k: nat)
    requires k < |Lines(t)|
    ensures Offsets(Lines(t), 0)[k].0 <= |t|
  {
    OffsetIsStartIff(t, k);
  }

  lemma FuzzyIsOffset(lev: Metric, t: string, c: Comment) returns (k: nat)
    requires Fuzzy(lev, Offsets(Lines(t), 0), c.after, c.before).Some?
    ensures k < |Lines(t)| && Fuzzy(lev, Offsets(Lines(t), 0), c.after, c.before).value == Offsets(Lines(t), 0)[k].0
  {
    var w := FuzzyWindow(lev, Offsets(Lines(t), 0), c.after, c.before);
    k := w + 1;
  }

  lemma {:induction false} FuzzyIsInside(lev: Metric, t: string, c: Comment)
    ensures var r := Fuzzy(lev, Offsets(Lines(t), 0), c.after, c.before); r.Some? ==> r.value <= |t|
  {
    if Fuzzy(lev, Offsets(Lines(t), 0), c.after, c.before).Some? {
      var k := FuzzyIsOffset(lev, t, c);
      OffsetInside(t, k);
    }
  }

  /** Where a comment goes, if anywhere. */
  ghost function Place(lev: Metric, t: string, c: Comment): (p: Option<nat>)
    ensures p.Some? ==> p.value <= |t|
  {
    if c.before.Some? && FindFrom(t, c.before.value, 0).Some? then
      Some(BehindLine(t, FindFrom(t, c.before.value, 0).value))
    else if c.after.Some? && FindFrom(t, c.after.value, 0).Some? then FindFrom(t, c.after.value, 0)
    else
      FuzzyIsInside(lev, t, c);
      Fuzzy(lev, Offsets(Lines(t), 0), c.after, c.before)
  }

  // -------------------------------------------------------------- the passes

  datatype Insertion = Insertion(at: nat, text: string)

  datatype Pass = Pass(target: string, inserted: seq<Insertion>, leftover: seq<Comment>)

  /** One pass over the comments: what becomes of the text, which insertions were made, in
      order, and the comments that found no place. */
  ghost function PassOver(lev: Metric, t: string, cs: seq<Comment>): Pass
    decreases |cs|
  {
    if cs == [] then Pass(t, [], [])
    else
      var p := Place(lev, t, cs[0]);
      if p.Some? then
        var rest := PassOver(lev, Inserted(t, p.value, cs[0].text), cs[1..]);
        rest.(inserted := [Insertion(p.value, cs[0].text)] + rest.inserted)
      else
        var rest := PassOver(lev, t, cs[1..]);
        rest.(leftover := [cs[0]] + rest.leftover)
  }

  ghost function Both(lev: Metric, t: string, cs: seq<Comment>): Pass {
    var p := PassOver(lev, t, cs);
    var q := PassOver(lev, p.target, p.leftover);
    q.(inserted := p.inserted + q.inserted)
  }

  /** A pass, one comment further. */
  lemma {:induction false} PassNext(lev: Metric, t: string, cs: seq<Comment>, c: Comment)
    ensures var r := PassOver(lev, t, cs);
      var p := Place(lev, r.target, c);
      PassOver(lev, t, cs + [c]) ==
      if p.Some? then Pass(Inserted(r.target, p.value, c.text), r.inserted + [Insertion(p.value, c.text)], r.leftover)
      else r.(leftover := r.leftover + [c])
    decreases |cs|
  {
    if cs == [] {
      assert [] + [c] == [c];
      assert PassOver(lev, t, []) == Pass(t, [], []);
    } else {
      assert (cs + [c])[1..] == cs[1..] + [c] && (cs + [c])[0] == cs[0];
      var p := Place(lev, t, cs[0]);
      var u := if p.Some? then Inserted(t, p.value, cs[0].text) else t;
      PassNext(lev, u, cs[1..], c);
      var r := PassOver(lev, u, cs[1..]);
      Associative([cs[0]], r.leftover, [c]);
      if p.Some? && Place(lev, r.target, c).Some? {
        Associative([Insertion(p.value, cs[0].text)], r.inserted, [Insertion(Place(lev, r.target, c).value, c.text)]);
      }
    }
  }

  method OnePass(lev: Metric, buf: Buffer, comments: seq<Comment>) returns (leftover: seq<Comment>)
    modifies buf
    ensures var r := PassOver(lev, old(buf.text), comments); buf.text == r.target && leftover == r.leftover
  {
    leftover := [];
    for i := 0 to |comments|
      invariant var r := PassOver(lev, old(buf.text), comments[..i]); buf.text == r.target && leftover == r.leftover
    {
      PassNext(lev, old(buf.text), comments[..i], comments[i]);
      assert comments[..i + 1] == comments[..i] + [comments[i]];
      var placed := buf.TryPlace(lev, comments[i]);
      if !placed {
        leftover := leftover + [comments[i]];
      }
    }
    assert comments[..|comments|] == comments;
  }

  /** `apply_comments`: a pass over all comments, and one more over those without a place. */
  method ApplyComments(lev: Metric, target: string, comments: seq<Comment>) returns (r: string)
    ensures r == Both(lev, target, comments).target
  {
    var buf := new Buffer(target);
    var leftover := OnePass(lev, buf, comments);
    var _ := OnePass(lev, buf, leftover);
    r := buf.text;
  }

  // ---------------------------------------------------------- only insertions

  /** The text without the blocks inserted, taken out last first; nothing if one of them is
      not where it was put. */
  function Undo(t: string, ins: seq<Insertion>): Option<string>
    decreases |ins|
  {
    if ins == [] then Some(t)
    else
      var x := ins[|ins| - 1];
      if x.at <= |t| && x.text + "\n" <= t[x.at..] then
        Undo(t[..x.at] + t[x.at + |x.text| + 1..], ins[..|ins| - 1])
      else None
  }

  function Sizes(ins: seq<Insertion>): nat {
    if ins == [] then 0 else |ins[0].text| + 1 + Sizes(ins[1..])
  }

  function InsertedTexts(ins: seq<Insertion>): (ts: seq<string>) {
    if ins == [] then [] else [ins[0].text] + InsertedTexts(ins[1..])
  }

  function Texts(cs: seq<Comment>): seq<string> {
    if cs == [] then [] else [cs[0].text] + Texts(cs[1..])
  }

  lemma UndoOne(t: string, p: nat, text: string)
    requires p <= |t|
    ensures Undo(Inserted(t, p, text), [Insertion(p, text)]) == Some(t)
  {
    var u, block := Inserted(t, p, text), text + "\n";
    assert u[p..] == block + t[p..];
    assert u[..p] + u[p + |block|..] == t;
    assert [Insertion(p, text)][..0] == [];
  }

  lemma {:induction false} UndoAppend(t: string, a: seq<Insertion>, b: seq<Insertion>)
    requires Undo(t, b).Some?
    ensures Undo(t, a + b) == Undo(Undo(t, b).value, a)
    decreases |b|
  {
    if b == [] {
      assert a + b == a;
    } else {
      var x := b[|b| - 1];
      assert (a + b)[|a + b| - 1] == x && (a + b)[..|a + b| - 1] == a + b[..|b| - 1];
      UndoAppend(t[..x.at] + t[x.at + |x.text| + 1..], a, b[..|b| - 1]);
    }
  }

  lemma {:induction false} PassUndone(lev: Metric, t: string, cs: seq<Comment>)
    ensures var r := PassOver(lev, t, cs);
      && Undo(r.target, r.inserted) == Some(t)
      && |r.target| == |t| + Sizes(r.inserted)
    decreases |cs|
  {
    if cs != [] {
      var p := Place(lev, t, cs[0]);
      if p.Some? {
        var u := Inserted(t, p.value, cs[0].text);
        PassUndone(lev, u, cs[1..]);
        var r := PassOver(lev, u, cs[1..]);
        UndoAppend(r.target, [Insertion(p.value, cs[0].text)], r.inserted);
        UndoOne(t, p.value, cs[0].text);
      } else {
        PassUndone(lev, t, cs[1..]);
      }
    }
  }

  lemma {:induction false} SizesAppend(a: seq<Insertion>, b: seq<Insertion>)
    ensures Sizes(a + b) == Sizes(a) + Sizes(b)
  {
    if a == [] {
      assert a + b == b;
    } else {
      assert (a + b)[1..] == a[1..] + b;
      SizesAppend(a[1..], b);
    }
  }

  /** Nothing but the comments is added: with the insertions taken out again the target is
      back, and the length grew by their texts and a newline each. */
  lemma OnlyInserts(lev: Metric, t: string, cs: seq<Comment>)
    ensures var r := Both(lev, t, cs);
      && Undo(r.target, r.inserted) == Some(t)
      && |r.target| == |t| + Sizes(r.inserted)
  {
    var p := PassOver(lev, t, cs);
    var q := PassOver(lev, p.target, p.leftover);
    PassUndone(lev, t, cs);
    PassUndone(lev, p.target, p.leftover);
    UndoAppend(q.target, p.inserted, q.inserted);
    SizesAppend(p.inserted, q.inserted);
  }

  lemma {:induction false} PassPlacesOnce(lev: Metric, t: string, cs: seq<Comment>)
    ensures var r := PassOver(lev, t, cs);
      multiset(InsertedTexts(r.inserted)) + multiset(Texts(r.leftover)) == multiset(Texts(cs))
    decreases |cs|
  {
    if cs != [] {
      var p := Place(lev, t, cs[0]);
      PassPlacesOnce(lev, if p.Some? then Inserted(t, p.value, cs[0].text) else t, cs[1..]);
    }
  }

  lemma {:induction false} InsertedTextsAppend(a: seq<Insertion>, b: seq<Insertion>)
    ensures InsertedTexts(a + b) == InsertedTexts(a) + InsertedTexts(b)
  {
    if a == [] {
      assert a + b == b;
    } else {
      assert (a + b)[1..] == a[1..] + b;
      InsertedTextsAppend(a[1..], b);
      Associative([a[0].text], InsertedTexts(a[1..]), InsertedTexts(b));
    }
  }

  /** Every comment is placed once or dropped, whichever pass it was. */
  lemma EachAtMostOnce(lev: Metric, t: string, cs: seq<Comment>)
    ensures var r := Both(lev, t, cs);
      multiset(InsertedTexts(r.inserted)) + multiset(Texts(r.leftover)) == multiset(Texts(cs))
  {
    var p := PassOver(lev, t, cs);
    var q := PassOver(lev, p.target, p.leftover);
    PassPlacesOnce(lev, t, cs);
    PassPlacesOnce(lev, p.target, p.leftover);
    InsertedTextsAppend(p.inserted, q.inserted);
  }

  // -------------------------------------------------------------- whole lines

  predicate AtLineStart(t: string, p: nat)
    requires p <= |t|
  {
    p == 0 || t[p - 1] == '\n'
  }

  lemma BehindLineStarts(t: string, p: nat)
    requires p <= |t|
    ensures AtLineStart(t, BehindLine(t, p)) <==> '\n' in t[p..] || AtLineStart(t, p)
  {
    EndOfLineIs(t[p..]);
    if EndOfLine(t[p..]) == |t| - p {
      assert t[p..][..|t| - p] == t[p..];
    }
  }

  lemma {:induction false} NoReturns(t: string, k: nat)
    requires '\r' !in t
    ensures Returns(t, k) == 0
    decreases k
  {
    if k > 0 && EndOfLine(t) < |t| {
      assert forall c :: c in RestOf(t) ==> c in t;
      assert forall c :: c in t[..EndOfLine(t)] ==> c in t;
      NoReturns(RestOf(t), k - 1);
    }
  }

  lemma OffsetStarts(t: string, k: nat)
    requires '\r' !in t && k < |Lines(t)|
    ensures Offsets(Lines(t), 0)[k].0 <= |t| && AtLineStart(t, Offsets(Lines(t), 0)[k].0)
  {
    NoReturns(t, k);
    OffsetIsStartIff(t, k);
  }

  lemma {:induction false} FuzzyStartsLine(lev: Metric, t: string, c: Comment)
    requires '\r' !in t && Fuzzy(lev, Offsets(Lines(t), 0), c.after, c.before).Some?
    ensures var p := Fuzzy(lev, Offsets(Lines(t), 0), c.after, c.before).value; p <= |t| && AtLineStart(t, p)
  {
    var k := FuzzyIsOffset(lev, t, c);
    OffsetStarts(t, k);
  }

  /** A comment goes to the start of a line unless the anchor it goes by was found inside of
      one: the line that should follow it, or the line before it when that is the last. */
  lemma PlaceStartsLineIff(lev: Metric, t: string, c: Comment)
    requires '\r' !in t && Place(lev, t, c).Some?
    ensures AtLineStart(t, Place(lev, t, c).value) <==>
      if c.before.Some? && FindFrom(t, c.before.value, 0).Some? then
        var p := FindFrom(t, c.before.value, 0).value;
        '\n' in t[p..] || AtLineStart(t, p)
      else if c.after.Some? && FindFrom(t, c.after.value, 0).Some? then
        AtLineStart(t, FindFrom(t, c.after.value, 0).value)
      else true
  {
    if c.before.Some? && FindFrom(t, c.before.value, 0).Some? {
      BehindLineStarts(t, FindFrom(t, c.before.value, 0).value);
    } else if c.after.Some? && FindFrom(t, c.after.value, 0).Some? {
    } else {
      FuzzyStartsLine(lev, t, c);
    }
  }

  lemma {:induction false} EndOfLineAppend(a: string, b: string)
    requires EndOfLine(a) < |a|
    ensures EndOfLine(a + b) == EndOfLine(a)
  {
    if a[0] != '\n' {
      assert (a + b)[1..] == a[1..] + b;
      EndOfLineAppend(a[1..], b);
    }
  }

  lemma CutAppend(a: string, b: string, i: nat)
    requires i < |a|
    ensures (a + b)[..i] == a[..i] && (a + b)[i + 1..] == a[i + 1..] + b
  {}

  lemma LinesNext(t: string)
    requires EndOfLine(t) < |t|
    ensures Lines(t) == [FirstOf(t)] + Lines(RestOf(t))
  {}

  lemma {:induction false} EndsBroken(a: string)
    requires a != "" && a[|a| - 1] == '\n'
    ensures EndOfLine(a) < |a|
    ensures RestOf(a) != "" ==> RestOf(a)[|RestOf(a)| - 1] == '\n'
  {
    EndOfLineIs(a);
    assert a[..|a|] == a && a[|a| - 1] in a;
  }

  lemma {:induction false} LinesAppend(a: string, b: string)
    requires a == "" || a[|a| - 1] == '\n'
    ensures Lines(a + b) == Lines(a) + Lines(b)
    decreases |a|
  {
    if a == "" {
      assert a + b == b && [] + Lines(b) == Lines(b);
    } else {
      EndsBroken(a);
      EndOfLineAppend(a, b);
      CutAppend(a, b, EndOfLine(a));
      LinesAppend(RestOf(a), b);
      LinesNext(a);
      LinesNext(a + b);
      Associative([FirstOf(a)], Lines(RestOf(a)), Lines(b));
    }
  }

  /** Put at the start of a line, a comment is a line of its own, and no other changes. */
  lemma {:induction false} InsertAddsLine(t: string, p: nat, text: string) returns (k: nat)
    requires p <= |t| && AtLineStart(t, p) && '\n' !in text && StripReturn(text) == text
    ensures k <= |Lines(t)| && Lines(Inserted(t, p, text)) == Lines(t)[..k] + [text] + Lines(t)[k..]
    ensures Lines(t)[..k] == Lines(t[..p])
  {
    var a, b := t[..p], t[p..];
    SplitAt(t, p);
    LinesAppend(a, b);
    LinesAppend(a, text + "\n" + b);
    Associative(a, text + "\n", b);
    LineBefore(text, b);
    k := |Lines(a)|;
    Associative(Lines(a), [text], Lines(b));
    SplitsBack(Lines(t), Lines(a), Lines(b));
  }

  lemma SplitsBack<T>(t: seq<T>, a: seq<T>, b: seq<T>)
    requires t == a + b
    ensures t[..|a|] == a && t[|a|..] == b
  {}
}
