/** The language server's re-indenter. */
module Reindent {
  import opened Text

  // ---------------------------------------------------------------- one line

  function Spaces(depth: nat): string {
    if depth == 0 then "" else "    " + Spaces(depth - 1)
  }

  function ReindentLine(depth: nat, line: string): string {
    Spaces(depth) + Trim(line)
  }

  lemma OneMoreLevel(depth: nat, s: string)
    ensures "    " + (Spaces(depth) + s) == Spaces(depth + 1) + s
  {
    assert "    " + Spaces(depth) + s == "    " + (Spaces(depth) + s);
  }

  /** `reindent_line`: four spaces put in front, once for each level. */
  method IndentLine(depth: nat, line: string) returns (r: string)
    ensures r == ReindentLine(depth, line)
  {
    r := Trim(line);
    assert Spaces(0) + r == r;
    for i := 0 to depth
      invariant r == ReindentLine(i, line)
    {
      OneMoreLevel(i, Trim(line));
      r := "    " + r;
    }
  }

  predicate Opens(c: char) { c == '{' || c == '[' || c == '(' }
  predicate Closes(c: char) { c == '}' || c == ']' || c == ')' }

  /** Brackets opened minus brackets closed, outside of double quotes. */
  function NetShift(line: string, inside: bool): int
    decreases |line|
  {
    if line == "" then 0
    else if inside then NetShift(line[1..], line[0] != '\"')
    else (if Opens(line[0]) then 1 else if Closes(line[0]) then -1 else 0) + NetShift(line[1..], line[0] == '\"')
  }

  function EndsInside(line: string, inside: bool): bool
    decreases |line|
  {
    if line == "" then inside else EndsInside(line[1..], (line[0] == '\"') != inside)
  }

  /** `count_net_indent_shift`. */
  method CountNetIndentShift(line: string, inside: bool) returns (net: int, insideAfter: bool)
    ensures net == NetShift(line, inside) && insideAfter == EndsInside(line, inside)
  {
    net, insideAfter := 0, inside;
    assert line[0..] == line;
    for i := 0 to |line|
      invariant NetShift(line, inside) == net + NetShift(line[i..], insideAfter)
      invariant EndsInside(line, inside) == EndsInside(line[i..], insideAfter)
    {
      assert line[i..][1..] == line[i + 1..];
      var c := line[i];
      if !insideAfter {
        if Opens(c) {
          net := net + 1;
        }
        if Closes(c) {
          net := net - 1;
        }
        if c == '\"' {
          insideAfter := true;
        }
      } else if c == '\"' {
        insideAfter := false;
      }
    }
  }

  // --------------------------------------------------------------- all lines

  function Clamp(n: int): nat {
    if n < 0 then 0 else n
  }

  /** A line that closes more than it opens already stands at the level it returns to. */
  function Depth(indent: int, net: int): nat {
    Clamp(if net < 0 then indent + net else indent)
  }

  /** Quotes are followed within a line only: every line starts outside. */
  function ReindentLines(ls: seq<string>, indent: int): (r: seq<string>)
    ensures |r| == |ls|
    decreases |ls|
  {
    if ls == [] then []
    else
      var net := NetShift(ls[0], false);
      [ReindentLine(Depth(indent, net), ls[0])] + ReindentLines(ls[1..], indent + net)
  }

  /** `reindent`. */
  method Reindent(src: string) returns (res: string)
    ensures res == Unlines(ReindentLines(Lines(src), 0))
  {
    res := "";
    var indent := 0;
    var lines := Lines(src);
    ghost var all := Unlines(ReindentLines(lines, 0));
    assert lines[0..] == lines && "" + all == all;
    for i := 0 to |lines|
      invariant all == res + Unlines(ReindentLines(lines[i..], indent))
    {
      var line, net := NextLine(lines[i], indent);
      Emitted(res, line, lines, i, indent);
      res := res + line;
      indent := indent + net;
      res := res + "\n";
    }
  }

  /** One line at its level, and the change of level it makes for the next one. */
  method NextLine(line: string, indent: int) returns (r: string, net: int)
    ensures net == NetShift(line, false) && r == ReindentLine(Depth(indent, net), line)
  {
    var inside;
    net, inside := CountNetIndentShift(line, false);
    if net < 0 {
      r := IndentLine(Clamp(indent + net), line);
    } else {
      r := IndentLine(Clamp(indent), line);
    }
  }

  lemma Emitted(res: string, line: string, ls: seq<string>, i: nat, indent: int)
    requires i < |ls| && line == ReindentLine(Depth(indent, NetShift(ls[i], false)), ls[i])
    ensures res + Unlines(ReindentLines(ls[i..], indent))
         == res + line + "\n" + Unlines(ReindentLines(ls[i + 1..], indent + NetShift(ls[i], false)))
  {
    var rest := ReindentLines(ls[i + 1..], indent + NetShift(ls[i], false));
    assert ls[i..][1..] == ls[i + 1..];
    assert ([line] + rest)[1..] == rest;
    assert res + (line + "\n" + Unlines(rest)) == res + line + "\n" + Unlines(rest);
  }

  // -------------------------------------------------------------- properties

  /** Brackets left open before the `k`th line. */
  function Balance(ls: seq<string>, k: nat): int
    requires k <= |ls|
  {
    if k == 0 then 0 else Balance(ls, k - 1) + NetShift(ls[k - 1], false)
  }

  lemma {:induction false} BalanceOfRest(ls: seq<string>, k: nat)
    requires 0 < k <= |ls|
    ensures Balance(ls, k) == NetShift(ls[0], false) + Balance(ls[1..], k - 1)
  {
    if k > 1 {
      BalanceOfRest(ls, k - 1);
    }
  }

  /** Every line keeps its trimmed text, at the clamped running balance of brackets. */
  lemma {:induction false} LineAt(ls: seq<string>, indent: int, k: nat)
    requires k < |ls|
    ensures ReindentLines(ls, indent)[k] == ReindentLine(Depth(indent + Balance(ls, k), NetShift(ls[k], false)), ls[k])
    decreases |ls|
  {
    if k > 0 {
      var rest, net := ls[1..], NetShift(ls[0], false);
      LineAt(rest, indent + net, k - 1);
      BalanceOfRest(ls, k);
      assert ReindentLines(ls, indent)[k] == ReindentLines(rest, indent + net)[k - 1] && rest[k - 1] == ls[k];
    }
  }

  lemma {:induction false} SpacesAreBlank(depth: nat)
    ensures forall i :: 0 <= i < |Spaces(depth)| ==> Spaces(depth)[i] == ' '
    ensures |Spaces(depth)| == 4 * depth && Blank(Spaces(depth))
  {
    if depth > 0 {
      SpacesAreBlank(depth - 1);
    }
  }

  lemma TrimOfIndented(depth: nat, line: string)
    ensures Trim(ReindentLine(depth, line)) == Trim(line)
  {
    var _, _ := TrimCuts(line);
    SpacesAreBlank(depth);
    TrimStartAfterBlank(Spaces(depth), Trim(line));
    AlreadyTrimmed(Trim(line));
  }

  lemma AlreadyTrimmed(s: string)
    requires Trimmed(s)
    ensures TrimEnd(s) == s
  {}

  lemma BlankIsNeutral(c: char)
    requires IsWhitespace(c)
    ensures !Opens(c) && !Closes(c) && c != '\"'
  {}

  /** Whitespace neither opens, closes nor quotes. */
  lemma {:induction false} NetShiftOfSpace(ws: string, s: string)
    requires Blank(ws)
    ensures NetShift(ws + s, false) == NetShift(s, false)
    decreases |ws|
  {
    if ws == "" {
      assert ws + s == s;
    } else {
      BlankIsNeutral(ws[0]);
      NetShiftOfSpace(ws[1..], s);
      assert (ws + s)[1..] == ws[1..] + s;
    }
  }

  lemma {:induction false} NetShiftOfBlank(ws: string, inside: bool)
    requires Blank(ws)
    ensures NetShift(ws, inside) == 0
    decreases |ws|
  {
    if ws != "" {
      BlankIsNeutral(ws[0]);
      NetShiftOfBlank(ws[1..], inside);
    }
  }

  lemma {:induction false} NetShiftBeforeSpace(s: string, ws: string, inside: bool)
    requires Blank(ws)
    ensures NetShift(s + ws, inside) == NetShift(s, inside)
    decreases |s|
  {
    if s == "" {
      assert s + ws == ws;
      NetShiftOfBlank(ws, inside);
    } else {
      assert (s + ws)[1..] == s[1..] + ws;
      NetShiftBeforeSpace(s[1..], ws, if inside then s[0] != '\"' else s[0] == '\"');
    }
  }

  /** The bracket counter does not see what trimming takes away. */
  lemma NetShiftOfTrim(line: string)
    ensures NetShift(line, false) == NetShift(Trim(line), false)
  {
    var head, tail := TrimCuts(line);
    NetShiftBeforeSpace(head + Trim(line), tail, false);
    NetShiftOfSpace(head, Trim(line));
  }

  lemma ShiftOfIndented(depth: nat, l: string)
    ensures NetShift(ReindentLine(depth, l), false) == NetShift(l, false)
  {
    TrimOfIndented(depth, l);
    NetShiftOfTrim(ReindentLine(depth, l));
    NetShiftOfTrim(l);
  }

  lemma LineTwice(indent: int, l: string)
    ensures var net := NetShift(l, false);
      var line := ReindentLine(Depth(indent, net), l);
      NetShift(line, false) == net && ReindentLine(Depth(indent, net), line) == line
  {
    TrimOfIndented(Depth(indent, NetShift(l, false)), l);
    ShiftOfIndented(Depth(indent, NetShift(l, false)), l);
  }

  lemma NetShiftKept(ls: seq<string>, indent: int, k: nat)
    requires k < |ls|
    ensures NetShift(ReindentLines(ls, indent)[k], false) == NetShift(ls[k], false)
  {
    LineAt(ls, indent, k);
    ShiftOfIndented(Depth(indent + Balance(ls, k), NetShift(ls[k], false)), ls[k]);
  }

  lemma {:induction false} BalanceKept(ls: seq<string>, indent: int, k: nat)
    requires k <= |ls|
    ensures Balance(ReindentLines(ls, indent), k) == Balance(ls, k)
  {
    if k > 0 {
      BalanceKept(ls, indent, k - 1);
      NetShiftKept(ls, indent, k - 1);
    }
  }

  lemma LineTwiceAt(ls: seq<string>, indent: int, k: nat)
    requires k < |ls|
    ensures ReindentLines(ReindentLines(ls, indent), indent)[k] == ReindentLines(ls, indent)[k]
  {
    LineAt(ls, indent, k);
    LineAt(ReindentLines(ls, indent), indent, k);
    BalanceKept(ls, indent, k);
    LineTwice(indent + Balance(ls, k), ls[k]);
  }

  lemma ReindentLinesTwice(ls: seq<string>, indent: int)
    ensures ReindentLines(ReindentLines(ls, indent), indent) == ReindentLines(ls, indent)
  {
    forall k | 0 <= k < |ls| ensures ReindentLines(ReindentLines(ls, indent), indent)[k] == ReindentLines(ls, indent)[k] {
      LineTwiceAt(ls, indent, k);
    }
  }

  /** No line ending in it. */
  predicate IsLine(l: string) {
    '\n' !in l && StripReturn(l) == l
  }

  lemma {:induction false} ReindentedLinesAreLines(ls: seq<string>, indent: int)
    requires forall i :: 0 <= i < |ls| ==> '\n' !in ls[i]
    ensures forall i :: 0 <= i < |ls| ==> IsLine(ReindentLines(ls, indent)[i])
    decreases |ls|
  {
    if ls != [] {
      var net := NetShift(ls[0], false);
      IndentedIsLine(Depth(indent, net), ls[0]);
      ReindentedLinesAreLines(ls[1..], indent + net);
    }
  }

  lemma IndentedIsLine(depth: nat, line: string)
    requires '\n' !in line
    ensures IsLine(ReindentLine(depth, line))
  {
    var r, t := ReindentLine(depth, line), Trim(line);
    var head, tail := TrimCuts(line);
    SpacesAreBlank(depth);
    assert forall c :: c in t ==> c in line;
    assert r != "" ==> r[|r| - 1] == if t != "" then t[|t| - 1] else ' ';
  }

  /** Re-indenting keeps the lines but for their indentation, and doing it twice is doing
      it once. */
  lemma ReindentIdempotent(src: string)
    ensures var out := Unlines(ReindentLines(Lines(src), 0));
      && Lines(out) == ReindentLines(Lines(src), 0)
      && |Lines(out)| == |Lines(src)|
      && Unlines(ReindentLines(Lines(out), 0)) == out
  {
    LinesAreUnbroken(src);
    ReindentedLinesAreLines(Lines(src), 0);
    assert forall i :: 0 <= i < |Lines(src)| ==> IsLine(ReindentLines(Lines(src), 0)[i]);
    LinesOfUnlines(ReindentLines(Lines(src), 0));
    ReindentLinesTwice(Lines(src), 0);
  }
}
