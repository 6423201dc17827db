/** The levels the re-indenter puts lines at, counted without its own counter. */
module ReindentLevels {
  import opened Text
  import opened Reindent

  /** Double quotes among the first `n` characters. */
  function Quotes(line: string, n: nat): nat
    requires n <= |line|
  {
    if n == 0 then 0 else Quotes(line, n - 1) + if line[n - 1] == '\"' then 1 else 0
  }

  /** Inside of quotes, for a line that starts outside of them. */
  predicate Quoted(line: string, i: nat)
    requires i < |line|
  {
    Quotes(line, i) % 2 == 1
  }

  function OpenedUpTo(line: string, n: nat): nat
    requires n <= |line|
  {
    if n == 0 then 0 else OpenedUpTo(line, n - 1) + if !Quoted(line, n - 1) && line[n - 1] in "{[(" then 1 else 0
  }

  function ClosedUpTo(line: string, n: nat): nat
    requires n <= |line|
  {
    if n == 0 then 0 else ClosedUpTo(line, n - 1) + if !Quoted(line, n - 1) && line[n - 1] in "}])" then 1 else 0
  }

  lemma DropNext(line: string, n: nat)
    requires n < |line|
    ensures line[n..][1..] == line[n + 1..] && line[n..][0] == line[n]
  {}

  /** The counter goes through the line as these functions do. */
  lemma {:induction false} ShiftUpTo(line: string, n: nat)
    requires n <= |line|
    ensures NetShift(line, false) == OpenedUpTo(line, n) - ClosedUpTo(line, n) + NetShift(line[n..], Quotes(line, n) % 2 == 1)
    ensures EndsInside(line, false) == EndsInside(line[n..], Quotes(line, n) % 2 == 1)
  {
    if n == 0 {
      assert line[0..] == line;
    } else {
      ShiftUpTo(line, n - 1);
      DropNext(line, n - 1);
    }
  }

  /** The shift of a line is its opening brackets outside of quotes less its closing ones. */
  lemma NetShiftIs(line: string)
    ensures NetShift(line, false) == OpenedUpTo(line, |line|) - ClosedUpTo(line, |line|)
    ensures EndsInside(line, false) <==> Quotes(line, |line|) % 2 == 1
  {
    ShiftUpTo(line, |line|);
    assert line[|line|..] == "";
  }

  function Min(a: int, b: int): int {
    if a < b then a else b
  }

  /** A line stands at the lower of the levels before and after it, but not left of the margin:
      four spaces for each, and then its text without the space around it. */
  lemma LineStandsAt(ls: seq<string>, k: nat)
    requires k < |ls|
    ensures var level := Min(Balance(ls, k), Balance(ls, k + 1));
      var line := ReindentLines(ls, 0)[k];
      var margin := 4 * if level < 0 then 0 else level;
      && |line| == margin + |Trim(ls[k])|
      && (forall i :: 0 <= i < margin ==> line[i] == ' ')
      && line[margin..] == Trim(ls[k])
  {
    LineAt(ls, 0, k);
    SpacesAreBlank(Depth(Balance(ls, k), NetShift(ls[k], false)));
  }
}
