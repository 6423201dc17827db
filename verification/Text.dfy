/** Strings the way the standard library of the modelled code cuts them. */
module Text {

  /** The Unicode property White_Space, which `trim` goes by. */
  predicate IsWhitespace(c: char) {
    var n := c as int;
    0x9 <= n <= 0xD || n == 0x20 || n == 0x85 || n == 0xA0 || n == 0x1680 || 0x2000 <= n <= 0x200A
    || n == 0x2028 || n == 0x2029 || n == 0x202F || n == 0x205F || n == 0x3000
  }

  function TrimStart(s: string): (r: string)
    ensures |r| <= |s|
  {
    if s != "" && IsWhitespace(s[0]) then TrimStart(s[1..]) else s
  }

  function TrimEnd(s: string): (r: string)
    ensures |r| <= |s|
  {
    if s != "" && IsWhitespace(s[|s| - 1]) then TrimEnd(s[..|s| - 1]) else s
  }

  function Trim(s: string): string {
    TrimEnd(TrimStart(s))
  }

  predicate Blank(s: string) {
    forall i :: 0 <= i < |s| ==> IsWhitespace(s[i])
  }

  /** Neither end is whitespace: trimming changes nothing. */
  predicate Trimmed(s: string) {
    s == "" || (!IsWhitespace(s[0]) && !IsWhitespace(s[|s| - 1]))
  }

  lemma {:induction false} TrimStartCuts(s: string)
    ensures var r := TrimStart(s);
      && s == s[..|s| - |r|] + r && Blank(s[..|s| - |r|])
      && (r == "" || !IsWhitespace(r[0]))
  {
    if s != "" && IsWhitespace(s[0]) {
      TrimStartCuts(s[1..]);
    }
  }

  lemma {:induction false} TrimEndCuts(s: string)
    ensures var r := TrimEnd(s);
      && s == r + s[|r|..] && Blank(s[|r|..])
      && (r == "" || !IsWhitespace(r[|r| - 1]))
  {
    if s != "" && IsWhitespace(s[|s| - 1]) {
      TrimEndCuts(s[..|s| - 1]);
    }
  }

  /** What trimming leaves has whitespace at neither end, and is what was in between. */
  lemma TrimCuts(s: string) returns (head: string, tail: string)
    ensures s == head + Trim(s) + tail && Blank(head) && Blank(tail) && Trimmed(Trim(s))
  {
    var a := TrimStart(s);
    TrimStartCuts(s);
    TrimEndCuts(a);
    head, tail := s[..|s| - |a|], a[|Trim(s)|..];
    assert Trim(s) != "" ==> Trim(s)[0] == a[0];
  }

  lemma {:induction false} TrimStartAfterBlank(head: string, s: string)
    requires Blank(head) && (s == "" || !IsWhitespace(s[0]))
    ensures TrimStart(head + s) == s
    decreases |head|
  {
    if head == "" {
      assert head + s == s;
    } else {
      assert (head + s)[1..] == head[1..] + s;
      TrimStartAfterBlank(head[1..], s);
    }
  }

  function IndexOf(s: string, c: char): (i: nat)
    ensures i <= |s| && forall m :: 0 <= m < i ==> s[m] != c
    ensures i < |s| ==> s[i] == c
  {
    if s == "" || s[0] == c then 0 else 1 + IndexOf(s[1..], c)
  }

  lemma {:induction false} FirstIndex(s: string, c: char, n: nat)
    requires n <= |s| && (forall m :: 0 <= m < n ==> s[m] != c) && (n < |s| ==> s[n] == c)
    ensures IndexOf(s, c) == n
  {}

  /** Where the first line's text ends, its carriage return included. */
  function EndOfLine(s: string): (i: nat)
    ensures i <= |s|
  {
    if s == "" || s[0] == '\n' then 0 else 1 + EndOfLine(s[1..])
  }

  /** A text and what follows its first newline. */
  lemma {:induction false} EndOfFirst(l: string, rest: string)
    requires '\n' !in l
    ensures EndOfLine(l + ("\n" + rest)) == |l|
  {
    if l == "" {
      assert l + ("\n" + rest) == "\n" + rest;
    } else {
      assert forall c :: c in l[1..] ==> c in l;
      EndOfFirst(l[1..], rest);
      assert (l + ("\n" + rest))[1..] == l[1..] + ("\n" + rest);
    }
  }

  lemma {:induction false} EndOfLineIs(s: string)
    ensures '\n' !in s[..EndOfLine(s)]
    ensures EndOfLine(s) < |s| ==> s[EndOfLine(s)] == '\n'
  {
    if s != "" && s[0] != '\n' {
      EndOfLineIs(s[1..]);
      assert s[..EndOfLine(s)] == [s[0]] + s[1..][..EndOfLine(s[1..])];
    }
  }

  /** `str::lines`: lines end at a newline, and a carriage return before it goes with it. */
  function Lines(s: string): seq<string>
    decreases |s|
  {
    if s == "" then []
    else
      var i := EndOfLine(s);
      if i == |s| then [s] else [StripReturn(s[..i])] + Lines(s[i + 1..])
  }

  function StripReturn(l: string): (r: string)
    ensures r <= l
  {
    if l != "" && l[|l| - 1] == '\r' then l[..|l| - 1] else l
  }

  lemma {:induction false} LinesAreUnbroken(s: string)
    ensures forall i :: 0 <= i < |Lines(s)| ==> '\n' !in Lines(s)[i]
    decreases |s|
  {
    var i := EndOfLine(s);
    EndOfLineIs(s);
    if i < |s| {
      LinesAreUnbroken(s[i + 1..]);
    } else {
      assert s[..i] == s;
    }
  }

  function Unlines(ls: seq<string>): string {
    if ls == [] then "" else ls[0] + "\n" + Unlines(ls[1..])
  }

  /** Lines that contain no line ending come back from their text. */
  lemma {:induction false} LinesOfUnlines(ls: seq<string>)
    requires forall i :: 0 <= i < |ls| ==> '\n' !in ls[i] && StripReturn(ls[i]) == ls[i]
    ensures Lines(Unlines(ls)) == ls
  {
    if ls != [] {
      LinesOfUnlines(ls[1..]);
      LineBefore(ls[0], Unlines(ls[1..]));
      assert [ls[0]] + ls[1..] == ls;
    }
  }

  lemma LineBefore(l: string, rest: string)
    requires '\n' !in l
    ensures Lines(l + "\n" + rest) == [StripReturn(l)] + Lines(rest)
  {
    var s := l + "\n" + rest;
    assert s == l + ("\n" + rest);
    EndOfFirst(l, rest);
    assert s[..|l|] == l && s[|l| + 1..] == rest;
  }
}
