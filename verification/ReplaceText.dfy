/** What `str::replace` and byte lengths are, apart from how they are computed here, and what
    reverse templating therefore puts back. */
module ReplaceText {
  import opened Collections
  import opened Template
  import opened ReverseTemplate

  // ------------------------------------------------------------- byte lengths

  lemma {:induction false} Utf8LenAppend(a: string, b: string)
    ensures Utf8Len(a + b) == Utf8Len(a) + Utf8Len(b)
  {
    if a == "" {
      assert a + b == b;
    } else {
      assert (a + b)[1..] == a[1..] + b;
      Utf8LenAppend(a[1..], b);
    }
  }

  /** What `n` bytes of UTF-8 can tell apart: 7 bits in one byte; in more, six in each after
      the first, and what the first has left. */
  function Capacity(n: nat): nat
    requires 1 <= n <= 4
  {
    [0x80, 0x800, 0x1_0000, 0x20_0000][n - 1]
  }

  /** A character takes as many bytes as it needs, and no more. */
  lemma Utf8LenOfChar(c: char)
    ensures var n := Utf8Len([c]); 1 <= n <= 4 && (c as int) < Capacity(n) && (n > 1 ==> (c as int) >= Capacity(n - 1))
  {
    assert [c][1..] == "";
  }

  lemma {:induction false} Utf8LenBounds(s: string)
    ensures |s| <= Utf8Len(s) <= 4 * |s|
    ensures (forall i :: 0 <= i < |s| ==> (s[i] as int) < 0x80) ==> Utf8Len(s) == |s|
  {
    if s != "" {
      Utf8LenBounds(s[1..]);
    }
  }

  // -------------------------------------------------------------- replacement

  /** The pieces with `sep` between any two. */
  function Joined(xs: seq<string>, sep: string): string {
    if xs == [] then "" else if |xs| == 1 then xs[0] else xs[0] + (sep + Joined(xs[1..], sep))
  }

  /** Every piece but the last ends where the pattern first occurs behind it; the last does
      not contain it. */
  ghost predicate Cuts(xs: seq<string>, v: string) {
    && xs != []
    && (forall i :: 0 <= i < |xs| - 1 ==> FirstAtEnd(xs[i], v))
    && !Contains(xs[|xs| - 1], v)
  }

  lemma JoinedFront(x: string, xs: seq<string>, sep: string)
    requires xs != []
    ensures Joined([x] + xs, sep) == x + (sep + Joined(xs, sep))
  {
    assert ([x] + xs)[1..] == xs;
  }

  lemma LongerFirst(c: char, xs: seq<string>, v: string)
    requires xs != []
    ensures Joined([[c] + xs[0]] + xs[1..], v) == [c] + Joined(xs, v)
  {
    var ys := [[c] + xs[0]] + xs[1..];
    assert ys[1..] == xs[1..];
    if |xs| > 1 {
      Associative([c], xs[0], v + Joined(xs[1..], v));
    }
  }

  lemma LongerCuts(c: char, t: string, xs: seq<string>, v: string)
    requires v != "" && Cuts(xs, v) && Joined(xs, v) == t && !(v <= [c] + t)
    ensures Cuts([[c] + xs[0]] + xs[1..], v)
  {
    var x, ys := [c] + xs[0], [[c] + xs[0]] + xs[1..];
    if |xs| > 1 {
      forall i | 0 <= i < |x| ensures !(v <= x[i..] + v) {
        if i == 0 {
          assert x[0..] == x;
          Associative([c], xs[0], v);
          StartsLonger([c] + (xs[0] + v), Joined(xs[1..], v), v);
          Associative([c], xs[0] + v, Joined(xs[1..], v));
          Associative(xs[0], v, Joined(xs[1..], v));
        } else {
          assert x[i..] == xs[0][i - 1..];
        }
      }
      forall i | 0 <= i < |ys| - 1 ensures FirstAtEnd(ys[i], v) {
        assert i > 0 ==> ys[i] == xs[i];
      }
      assert ys[|ys| - 1] == xs[|xs| - 1];
    } else {
      forall i | 0 <= i <= |x| ensures !(v <= x[i..]) {
        if i == 0 {
          assert x[0..] == x;
        } else {
          assert x[i..] == xs[0][i - 1..];
        }
      }
    }
  }

  lemma StartsLonger(a: string, b: string, v: string)
    ensures v <= a ==> v <= a + b
  {}

  /** Replacing cuts the text at the leftmost occurrences, none overlapping another, and puts
      the pieces together again with the replacement in between: all of them, and nothing else. */
  lemma {:induction false} ReplaceIsSplitJoin(s: string, v: string, w: string) returns (xs: seq<string>)
    requires v != ""
    ensures Cuts(xs, v) && s == Joined(xs, v) && Replace(s, v, w) == Joined(xs, w)
    decreases |s|
  {
    if s == "" {
      xs := [""];
    } else if v <= s {
      var ys := ReplaceIsSplitJoin(s[|v|..], v, w);
      xs := [""] + ys;
      JoinedFront("", ys, v);
      JoinedFront("", ys, w);
      PrefixSplits(v, s);
      assert xs[|xs| - 1] == ys[|ys| - 1] && forall i :: 0 < i < |xs| ==> xs[i] == ys[i - 1];
      assert "" + (w + Joined(ys, w)) == w + Joined(ys, w);
    } else {
      var ys := ReplaceIsSplitJoin(s[1..], v, w);
      assert s == [s[0]] + s[1..];
      xs := [[s[0]] + ys[0]] + ys[1..];
      LongerFirst(s[0], ys, v);
      LongerFirst(s[0], ys, w);
      LongerCuts(s[0], s[1..], ys, v);
    }
  }

  function Singles(s: string): (xs: seq<string>)
    ensures |xs| == |s|
  {
    if s == "" then [] else [[s[0]]] + Singles(s[1..])
  }

  /** An empty pattern is found before every character and at the end. */
  lemma {:induction false} ReplaceEmpty(s: string, w: string)
    ensures Replace(s, "", w) == w + Joined(Singles(s) + [""], w)
    decreases |s|
  {
    if s == "" {
      assert [] + [""] == [""] && w + "" == w;
    } else {
      var rest := Joined(Singles(s[1..]) + [""], w);
      ReplaceEmpty(s[1..], w);
      Associative([[s[0]]], Singles(s[1..]), [""]);
      JoinedFront([s[0]], Singles(s[1..]) + [""], w);
      Associative(w, [s[0]], w + rest);
    }
  }

  lemma ReplaceAbsent(s: string, v: string, w: string)
    requires v != "" && !Contains(s, v)
    ensures Replace(s, v, w) == s
  {
    var xs := ReplaceIsSplitJoin(s, v, w);
    if |xs| > 1 {
      ContainsAt(s, |xs[0]|, v);
    }
  }

  lemma ContainsAt(s: string, i: nat, v: string)
    requires i <= |s| && v <= s[i..]
    ensures Contains(s, v)
  {}

  lemma ReplacePresent(s: string, v: string, w: string)
    requires v != "" && Contains(s, v)
    ensures Contains(Replace(s, v, w), w)
  {
    var xs := ReplaceIsSplitJoin(s, v, w);
    if |xs| > 1 {
      ContainsAt(Joined(xs, w), |xs[0]|, w);
    }
  }

  // ---------------------------------------------------------- what is put back

  /** A value as long as the limit is put back wherever it stands; a text without it stays,
      and so does every text if the value is shorter. */
  lemma PutsBack(text: string, r: ReadOutput, v: string, minLength: nat)
    requires v != ""
    ensures Utf8Len(v) >= minLength && Contains(text, v) ==> Contains(ReverseAll(text, [(r, v)], minLength), r.IntoString())
    ensures |v| >= minLength ==> ReverseAll(v, [(r, v)], minLength) == r.IntoString()
    ensures Utf8Len(v) < minLength || !Contains(text, v) ==> ReverseAll(text, [(r, v)], minLength) == text
  {
    ReverseOne(text, (r, v), minLength);
    ReverseOne(v, (r, v), minLength);
    ReplaceWhole(v, r.IntoString());
    Utf8LenBounds(v);
    if Contains(text, v) {
      ReplacePresent(text, v, r.IntoString());
    } else {
      ReplaceAbsent(text, v, r.IntoString());
    }
  }

  /** Several values are put back one after the other, in the order given. */
  lemma {:induction false} PutsBackInOrder(text: string, a: seq<Item>, b: seq<Item>, minLength: nat)
    ensures ReverseAll(text, a + b, minLength) == ReverseAll(ReverseAll(text, a, minLength), b, minLength)
    decreases |a|
  {
    if a == [] {
      assert a + b == b;
    } else {
      assert (a + b)[1..] == a[1..] + b;
      PutsBackInOrder(
        if Selected(a[0], minLength) then Replace(text, a[0].1, a[0].0.IntoString()) else text, a[1..], b, minLength);
    }
  }
}
