/** Output references in resource bodies: finding `out://addr[key]`, expanding it to the
    output's value, and putting references back in place of values. */
module Template {
  import opened Collections
  import opened Text
  import opened Wrappers

  const MARK := "out://"

  datatype ReadOutput = ReadOutput(addr: string, key: string) {
    function IntoString(): string {
      MARK + Inner()
    }

    function Inner(): string {
      addr + "[" + key + "]"
    }

    /** What the scanner can produce, and read back. */
    ghost predicate WellFormed() {
      addr != "" && key != "" && '[' !in addr && ']' !in key
    }
  }

  /** The outputs that can be read at this moment; an unreadable one counts as missing. */
  type Readable = ReadOutput -> Option<string>

  // --------------------------------------------------------------- scanning

  /** The reference that starts exactly at the beginning of `s`, if any: the mark, one or
      more characters other than `[`, a `[`, one or more other than `]`, a `]`. */
  function MatchAt(s: string): Option<ReadOutput> {
    if MARK <= s then MatchBody(s[|MARK|..]) else None
  }

  function MatchBody(s: string): Option<ReadOutput> {
    var a := IndexOf(s, '[');
    if a == 0 || a == |s| then None
    else
      var t := s[a + 1..];
      var k := IndexOf(t, ']');
      if k == 0 || k == |t| then None else Some(ReadOutput(s[..a], t[..k]))
  }

  lemma IndexAfter(p: string, c: char, rest: string)
    requires c !in p
    ensures IndexOf(p + [c] + rest, c) == |p|
  {
    assert (p + [c] + rest)[|p|] == c;
    assert forall m :: 0 <= m < |p| ==> (p + [c] + rest)[m] == p[m];
  }

  lemma UpTo(s: string, i: nat)
    requires i < |s|
    ensures s[..i] + [s[i]] == s[..i + 1]
  {}

  lemma TakeTwice(s: string, i: nat, n: nat)
    requires i + n <= |s|
    ensures s[..i] + s[i..][..n] <= s
  {}

  lemma MatchBodySound(s: string)
    requires MatchBody(s).Some?
    ensures var r := MatchBody(s).value; r.WellFormed() && r.Inner() <= s
  {
    var a := IndexOf(s, '[');
    InnerIsPrefix(s, a, IndexOf(s[a + 1..], ']'));
  }

  lemma InnerIsPrefix(s: string, a: nat, k: nat)
    requires a < |s| && k < |s| - a - 1 && s[a] == '[' && s[a + 1..][k] == ']'
    ensures ReadOutput(s[..a], s[a + 1..][..k]).Inner() <= s
  {
    var t := s[a + 1..];
    UpTo(s, a);
    UpTo(t, k);
    TakeTwice(s, a + 1, k + 1);
    Associative(s[..a] + ['['], t[..k], [']']);
  }

  lemma MatchBodyComplete(r: ReadOutput, rest: string)
    requires r.WellFormed()
    ensures MatchBody(r.addr + ['['] + (r.key + [']'] + rest)) == Some(r)
  {
    var t := r.key + [']'] + rest;
    IndexAfter(r.addr, '[', t);
    IndexAfter(r.key, ']', rest);
    var s := r.addr + ['['] + t;
    assert s[|r.addr| + 1..] == t && s[..|r.addr|] == r.addr && t[..|r.key|] == r.key;
  }

  lemma PrefixOf(a: string, b: string, s: string)
    requires a <= s && b <= s[|a|..]
    ensures a + b <= s
  {
    assert s == a + (b + s[|a|..][|b|..]);
  }

  lemma MatchSound(s: string)
    requires MatchAt(s).Some?
    ensures var r := MatchAt(s).value; r.WellFormed() && r.IntoString() <= s
  {
    var r := MatchAt(s).value;
    MatchBodySound(s[|MARK|..]);
    PrefixOf(MARK, r.Inner(), s);
  }

  lemma MatchComplete(r: ReadOutput, rest: string)
    requires r.WellFormed()
    ensures MatchAt(r.IntoString() + rest) == Some(r)
  {
    var body := r.addr + ['['] + (r.key + [']'] + rest);
    MatchBodyComplete(r, rest);
    assert body == r.Inner() + rest;
    assert r.IntoString() + rest == MARK + body;
    assert (MARK + body)[|MARK|..] == body;
  }

  lemma PrefixSplits(a: string, s: string)
    requires a <= s
    ensures s == a + s[|a|..]
  {}

  /** The scanner reads exactly the printed form of well-formed references. */
  lemma MatchAtIff(s: string, r: ReadOutput)
    ensures MatchAt(s) == Some(r) <==> r.WellFormed() && r.IntoString() <= s
  {
    if MatchAt(s) == Some(r) {
      MatchSound(s);
    }
    if r.WellFormed() && r.IntoString() <= s {
      PrefixSplits(r.IntoString(), s);
      MatchComplete(r, s[|r.IntoString()|..]);
    }
  }

  // -------------------------------------------------------------- expanding

  datatype Templated = Templated(body: string, found: map<ReadOutput, string>, missing: set<ReadOutput>)

  function Append(t: Templated, u: Templated): Templated {
    Templated(t.body + u.body, t.found + u.found, t.missing + u.missing)
  }

  function Literal(c: char): Templated {
    Templated([c], map[], {})
  }

  function Reference(get: Readable, r: ReadOutput): Templated {
    match get(r)
    case Some(v) => Templated(v, map[r := v], {})
    case None => Templated(r.IntoString(), map[], {r})
  }

  function Expand(get: Readable, s: string): Templated
    decreases |s|
  {
    if s == "" then Templated("", map[], {})
    else match MatchAt(s)
      case None => Append(Literal(s[0]), Expand(get, s[1..]))
      case Some(r) => MatchAtIff(s, r); Append(Reference(get, r), Expand(get, s[|r.IntoString()|..]))
  }

  function ReadOutputs(s: string): seq<ReadOutput>
    decreases |s|
  {
    if s == "" then []
    else match MatchAt(s)
      case None => ReadOutputs(s[1..])
      case Some(r) => MatchAtIff(s, r); [r] + ReadOutputs(s[|r.IntoString()|..])
  }

  /** Expansion sorts the references of a body into those that can be read, with the value
      read, and those that cannot; nothing is missing exactly if all can be read. */
  lemma {:induction false} ExpandSplitsReferences(get: Readable, s: string)
    ensures var t := Expand(get, s);
      && (forall r :: r in t.found <==> r in ReadOutputs(s) && get(r).Some?)
      && (forall r :: r in t.found ==> Some(t.found[r]) == get(r) && r.WellFormed())
      && (forall r :: r in t.missing <==> r in ReadOutputs(s) && get(r).None?)
    decreases |s|
  {
    if s != "" {
      match MatchAt(s)
      case None => ExpandSplitsReferences(get, s[1..]);
      case Some(r) =>
        MatchAtIff(s, r);
        ExpandSplitsReferences(get, s[|r.IntoString()|..]);
    }
  }

  /** A body none of whose references can be read is left as it is. */
  lemma {:induction false} ExpandWithoutValues(get: Readable, s: string)
    requires Expand(get, s).found == map[]
    ensures Expand(get, s).body == s
    decreases |s|
  {
    if s != "" {
      match MatchAt(s)
      case None => ExpandWithoutValues(get, s[1..]);
      case Some(r) =>
        MatchAtIff(s, r);
        var n := |r.IntoString()|;
        assert Expand(get, s) == Append(Reference(get, r), Expand(get, s[n..]));
        NothingAppended(Reference(get, r), Expand(get, s[n..]), r);
        ExpandWithoutValues(get, s[n..]);
        assert s == s[..n] + s[n..];
    }
  }

  lemma NothingAppended(t: Templated, u: Templated, r: ReadOutput)
    requires Append(t, u).found == map[]
    ensures r !in t.found && u.found == map[]
  {
    assert r in t.found ==> r in Append(t, u).found;
    assert forall x :: x in u.found ==> x in Append(t, u).found;
  }

  lemma AppendAssociative(t: Templated, u: Templated, w: Templated)
    ensures Append(Append(t, u), w) == Append(t, Append(u, w))
  {}

  /** What the scanner consumes at the beginning of a non-empty text, and what it yields. */
  method NextPiece(get: Readable, s: string) returns (n: nat, piece: Templated)
    requires s != ""
    ensures 0 < n <= |s| && Expand(get, s) == Append(piece, Expand(get, s[n..]))
  {
    match MatchAt(s) {
      case None => n, piece := 1, Literal(s[0]);
      case Some(r) =>
        MatchAtIff(s, r);
        n, piece := |r.IntoString()|, Reference(get, r);
    }
  }

  /** `template_config`: one pass over the body. */
  method TemplateConfig(get: Readable, config: string) returns (t: Templated)
    ensures t == Expand(get, config)
  {
    t := Templated("", map[], {});
    var pos := 0;
    while pos < |config|
      invariant pos <= |config|
      invariant Expand(get, config) == Append(t, Expand(get, config[pos..]))
    {
      var n, piece := NextPiece(get, config[pos..]);
      DropTwice(config, pos, n);
      AppendAssociative(t, piece, Expand(get, config[pos + n..]));
      t, pos := Append(t, piece), pos + n;
    }
  }

  method NextReference(s: string) returns (n: nat, refs: seq<ReadOutput>)
    requires s != ""
    ensures 0 < n <= |s| && ReadOutputs(s) == refs + ReadOutputs(s[n..])
  {
    match MatchAt(s) {
      case None => n, refs := 1, [];
      case Some(r) =>
        MatchAtIff(s, r);
        n, refs := |r.IntoString()|, [r];
    }
  }

  /** `get_read_outputs`: the references of a body, in order, repetitions included. */
  method GetReadOutputs(config: string) returns (outputs: seq<ReadOutput>)
    ensures outputs == ReadOutputs(config)
  {
    outputs := [];
    var pos := 0;
    while pos < |config|
      invariant pos <= |config|
      invariant ReadOutputs(config) == outputs + ReadOutputs(config[pos..])
    {
      var n, refs := NextReference(config[pos..]);
      DropTwice(config, pos, n);
      Associative(outputs, refs, ReadOutputs(config[pos + n..]));
      outputs, pos := outputs + refs, pos + n;
    }
  }
}
