/** Unix paths as component lists: prefix validation, splitting a path at its prefix, the
    file an output address lives in, and relative paths. */
module Paths {
  import opened Collections
  import opened Text
  import opened Wrappers

  datatype Component = RootDir | CurDir | ParentDir | Normal(name: string)

  type Path = seq<Component>

  /** `split('/')`: always at least one part. */
  function Parts(s: string): (ps: seq<string>)
    ensures ps != []
    ensures forall p :: p in ps ==> '/' !in p
    decreases |s|
  {
    var i := IndexOf(s, '/');
    if i == |s| then [s] else [s[..i]] + Parts(s[i + 1..])
  }

  function Join(ps: seq<string>): string {
    if ps == [] then ""
    else if |ps| == 1 then ps[0]
    else ps[0] + "/" + Join(ps[1..])
  }

  lemma {:induction false} JoinParts(s: string)
    ensures Join(Parts(s)) == s
    decreases |s|
  {
    var i := IndexOf(s, '/');
    if i < |s| {
      JoinParts(s[i + 1..]);
      JoinFirst(s[..i], Parts(s[i + 1..]));
      CutAt(s, i);
    }
  }

  lemma CutAt(s: string, i: nat)
    requires i < |s| && s[i] == '/'
    ensures s == s[..i] + "/" + s[i + 1..]
  {}

  lemma JoinFirst(p: string, rest: seq<string>)
    requires rest != []
    ensures Join([p] + rest) == p + "/" + Join(rest)
  {
    assert ([p] + rest)[1..] == rest;
  }

  /** Empty parts and `.` parts do not count, except a leading `.`. */
  function Normalized(ps: seq<string>): Path {
    if ps == [] then [] else OfPart(ps[0]) + Normalized(ps[1..])
  }

  function OfPart(p: string): Path {
    if p == "" || p == "." then [] else if p == ".." then [ParentDir] else [Normal(p)]
  }

  function Components(s: string): Path {
    var ps := Parts(s);
    if s != "" && s[0] == '/' then [RootDir] + Normalized(ps)
    else if ps[0] == "." then [CurDir] + Normalized(ps[1..])
    else Normalized(ps)
  }

  // ------------------------------------------------------ accepted prefixes

  ghost predicate AcceptedAlone(key: string, count: nat) {
    && Trim(key) == key
    && (key == "/" ==> count == 1)
    && (key != "/" ==> forall c :: c in Components(key) ==> c.Normal?)
  }

  /** What `load_autoschematic_config` accepts: no prefix may start with another, as strings. */
  ghost predicate Accepted(keys: seq<string>) {
    && (forall i :: 0 <= i < |keys| ==> AcceptedAlone(keys[i], |keys|))
    && (forall i, j :: 0 <= i < |keys| && 0 <= j < |keys| && keys[i] != keys[j] ==> !(keys[j] <= keys[i]))
  }

  method HasNamesOnly(key: string) returns (ok: bool)
    ensures ok <==> forall c :: c in Components(key) ==> c.Normal?
  {
    var cs := Components(key);
    for j := 0 to |cs|
      invariant forall i :: 0 <= i < j ==> cs[i].Normal?
    {
      if !cs[j].Normal? {
        assert cs[j] in cs;
        return false;
      }
    }
    ok := true;
  }

  method ValidateOne(key: string, count: nat) returns (ok: bool)
    ensures ok <==> AcceptedAlone(key, count)
  {
    if Trim(key) != key {
      return false;
    }
    if key == "/" {
      return count == 1;
    }
    ok := HasNamesOnly(key);
  }

  /** The first validation loop; `keys` are the map's keys in the order they are visited. */
  method ValidateEach(keys: seq<string>) returns (ok: bool)
    ensures ok <==> forall i :: 0 <= i < |keys| ==> AcceptedAlone(keys[i], |keys|)
  {
    for i := 0 to |keys|
      invariant forall k :: 0 <= k < i ==> AcceptedAlone(keys[k], |keys|)
    {
      ok := ValidateOne(keys[i], |keys|);
      if !ok {
        return;
      }
    }
    ok := true;
  }

  /** The second validation loop. */
  method ValidatePairs(keys: seq<string>) returns (ok: bool)
    ensures ok <==> forall i, j :: 0 <= i < |keys| && 0 <= j < |keys| && keys[i] != keys[j] ==> !(keys[j] <= keys[i])
  {
    for i := 0 to |keys|
      invariant forall k, j :: 0 <= k < i && 0 <= j < |keys| && keys[k] != keys[j] ==> !(keys[j] <= keys[k])
    {
      for j := 0 to |keys|
        invariant forall m :: 0 <= m < j && keys[i] != keys[m] ==> !(keys[m] <= keys[i])
      {
        if keys[i] == keys[j] {
          continue;
        }
        if keys[j] <= keys[i] {
          return false;
        }
      }
    }
    ok := true;
  }

  /** The validation in `load_autoschematic_config`. */
  method ValidatePrefixes(keys: seq<string>) returns (ok: bool)
    ensures ok <==> Accepted(keys)
  {
    ok := ValidateEach(keys);
    if ok {
      ok := ValidatePairs(keys);
    }
  }

  /** Written with single slashes and without `.` parts; one slash at the end is fine. */
  ghost predicate Canonical(key: string) {
    var ps := Parts(key);
    && (forall i :: 0 <= i < |ps| - 1 ==> ps[i] != "")
    && (forall p :: p in ps ==> p != ".")
  }

  /** The names of a canonical key. */
  function Names(key: string): seq<string> {
    var ps := Parts(key);
    if ps[|ps| - 1] == "" then ps[..|ps| - 1] else ps
  }

  function Normals(names: seq<string>): (p: Path)
    ensures |p| == |names| && forall i :: 0 <= i < |p| ==> p[i] == Normal(names[i])
  {
    seq(|names|, i requires 0 <= i < |names| => Normal(names[i]))
  }

  // -------------------------------------------------------- split_prefix_addr

  function NormPrefix(key: string): string {
    var a := if key != "" && key[|key| - 1] == '/' then key[..|key| - 1] else key;
    var b := if "/" <= a then a[1..] else a;
    if "./" <= b then b[2..] else b
  }

  predicate Matches(key: string, path: Path) {
    Components(NormPrefix(key)) <= path
  }

  /** The first key, in the order the map is visited, that the path starts with. */
  function SplitPrefixAddr(keys: seq<string>, path: Path): Option<(string, Path)> {
    if keys == [] then None
    else if Matches(keys[0], path) then Some((keys[0], path[|Components(NormPrefix(keys[0]))|..]))
    else SplitPrefixAddr(keys[1..], path)
  }

  lemma {:induction false} NormalizedNames(ps: seq<string>)
    requires forall i :: 0 <= i < |Normalized(ps)| ==> Normalized(ps)[i].Normal?
    requires forall i :: 0 <= i < |ps| ==> ps[i] != "" && ps[i] != "."
    ensures Normalized(ps) == Normals(ps)
  {
    if ps != [] {
      var head, rest := OfPart(ps[0]), Normalized(ps[1..]);
      assert Normalized(ps) == head + rest && head[0] == Normalized(ps)[0];
      NormalPart(ps[0]);
      assert forall i :: 0 <= i < |rest| ==> rest[i] == Normalized(ps)[i + 1];
      NormalizedNames(ps[1..]);
    }
  }

  lemma NormalPart(p: string)
    requires p != "" && p != "." && OfPart(p)[0].Normal?
    ensures OfPart(p) == [Normal(p)]
  {}

  lemma {:induction false} NormalizedAppend(a: seq<string>, b: seq<string>)
    ensures Normalized(a + b) == Normalized(a) + Normalized(b)
  {
    if a == [] {
      assert a + b == b;
    } else {
      NormalizedAppend(a[1..], b);
      assert (a + b)[1..] == a[1..] + b;
      Associative(OfPart(a[0]), Normalized(a[1..]), Normalized(b));
    }
  }

  lemma {:induction false} JoinAppend(a: seq<string>, b: seq<string>)
    requires a != [] && b != []
    ensures Join(a + b) == Join(a) + "/" + Join(b)
  {
    if |a| == 1 {
      assert (a + b)[1..] == b;
    } else {
      JoinAppend(a[1..], b);
      assert (a + b)[1..] == a[1..] + b;
      Associative(a[0] + "/", Join(a[1..]), "/" + Join(b));
    }
  }

  lemma LeadingComponents(key: string)
    ensures key != "" && key[0] == '/' ==> RootDir in Components(key)
    ensures (key == "" || key[0] != '/') && Parts(key)[0] == "." ==> CurDir in Components(key)
    ensures key != "" && key[0] == '/' ==> Parts(key)[0] == ""
  {}

  /** An accepted key other than `/` does not start with a slash or a dot part. */
  lemma NotAbsolute(key: string, count: nat)
    requires AcceptedAlone(key, count) && key != "/"
    ensures key != "" ==> key[0] != '/'
    ensures Parts(key)[0] != "."
    ensures Components(key) == Normalized(Parts(key))
  {
    LeadingComponents(key);
  }

  lemma NamesOfCanonical(key: string)
    requires Canonical(key)
    ensures var names := Names(key);
      && (forall i :: 0 <= i < |names| ==> names[i] != "" && names[i] != "." && '/' !in names[i])
      && (Parts(key) == names || Parts(key) == names + [""])
      && Normalized(Parts(key)) == Normalized(names)
  {
    var ps, names := Parts(key), Names(key);
    assert forall i :: 0 <= i < |names| ==> names[i] == ps[i] && ps[i] in ps;
    if ps[|ps| - 1] == "" {
      assert ps == names + [""];
      NormalizedAppend(names, [""]);
      assert Normalized([""]) == [];
    }
  }

  /** A canonical key is its names, perhaps with a slash behind. */
  lemma CanonicalKey(key: string, count: nat)
    requires AcceptedAlone(key, count) && Canonical(key) && key != "/"
    ensures Components(key) == Normals(Names(key)) == Normalized(Names(key))
    ensures key == "" <==> Names(key) == []
    ensures key == Join(Names(key)) || (Names(key) != [] && key == Join(Names(key)) + "/")
  {
    var names := Names(key);
    NamesOfCanonical(key);
    NotAbsolute(key, count);
    NormalizedNames(names);
    JoinParts(key);
    if Parts(key) == names + [""] && names != [] {
      JoinAppend(names, [""]);
      assert Join([""]) == "" && Join(names) + "/" + "" == Join(names) + "/";
    }
  }

  /** Normalising a canonical key does not change its components. */
  lemma NormPrefixKeepsNames(key: string, count: nat)
    requires AcceptedAlone(key, count) && Canonical(key) && key != "/"
    ensures Components(NormPrefix(key)) == Normals(Names(key))
  {
    var names := Names(key);
    CanonicalKey(key, count);
    if names != [] {
      var j := Join(names);
      NamesOfCanonical(key);
      JoinOfNames(names);
      StripSlash(key, j);
    }
  }

  /** Stripping does nothing to joined names but drop the slash at the end. */
  lemma StripSlash(key: string, j: string)
    requires key == j || key == j + "/"
    requires j != "" && j[|j| - 1] != '/' && !("/" <= j) && !("./" <= j)
    ensures NormPrefix(key) == j
  {
    assert (j + "/")[..|j|] == j;
  }

  lemma JoinOfNames(names: seq<string>)
    requires names != [] && names[0] != "." && names[|names| - 1] != ""
    requires forall i :: 0 <= i < |names| ==> names[i] != "" && '/' !in names[i]
    ensures var j := Join(names);
      j != "" && j[|j| - 1] != '/' && !("/" <= j) && !("./" <= j) && Components(j) == Normalized(names)
  {
    PartsOfJoin(names);
    NamesStart(names);
    LastPart(Join(names));
  }

  lemma {:induction false} PartsOfJoin(ps: seq<string>)
    requires ps != [] && forall i :: 0 <= i < |ps| ==> '/' !in ps[i]
    ensures Parts(Join(ps)) == ps
  {
    if |ps| == 1 {
      FirstIndex(ps[0], '/', |ps[0]|);
    } else {
      var rest := Join(ps[1..]);
      PartsOfJoin(ps[1..]);
      PartsOfFirst(ps[0], rest);
    }
  }

  lemma PartsOfFirst(p: string, rest: string)
    requires '/' !in p
    ensures Parts(p + "/" + rest) == [p] + Parts(rest)
  {
    var s := p + "/" + rest;
    assert s[|p|] == '/' && forall m :: 0 <= m < |p| ==> s[m] == p[m];
    FirstIndex(s, '/', |p|);
    assert s[|p| + 1..] == rest && s[..|p|] == p;
  }

  lemma NamesStart(names: seq<string>)
    requires names != [] && names[0] != "" && names[0] != "." && '/' !in names[0]
    ensures !("/" <= Join(names)) && !("./" <= Join(names))
  {
    var s, n := Join(names), names[0];
    assert n <= s && s[0] == n[0];
    if |n| > 1 {
      assert s[1] == n[1] && n[1] in n;
    } else {
      assert n == [n[0]];
    }
  }

  lemma {:induction false} LastPart(s: string)
    requires Parts(s)[|Parts(s)| - 1] != ""
    ensures s != "" && s[|s| - 1] != '/'
    decreases |s|
  {
    var i := IndexOf(s, '/');
    if i < |s| {
      var t := s[i + 1..];
      var ps := Parts(t);
      assert Parts(s)[|ps|] == ps[|ps| - 1];
      LastPart(t);
    }
  }

  // ------------------------------------------------------------ unique split

  /** No two keys of which one's components start the other's. */
  ghost predicate Incomparable(keys: seq<string>) {
    forall i, j :: 0 <= i < |keys| && 0 <= j < |keys| && keys[i] != keys[j] ==>
      !(Components(NormPrefix(keys[i])) <= Components(NormPrefix(keys[j])))
  }

  lemma {:induction false} JoinOfPrefix(a: seq<string>, b: seq<string>)
    requires a != [] && a <= b
    ensures Join(a) <= Join(b)
    ensures a != b ==> Join(a) + "/" <= Join(b)
  {
    if a != b {
      var c := b[|a|..];
      assert b == a + c;
      JoinAppend(a, c);
    }
  }

  /** As strings no accepted key starts another; for canonical keys that is enough for
      their components, too. */
  lemma {:induction false} AcceptedIsIncomparable(keys: seq<string>)
    requires Accepted(keys) && forall i :: 0 <= i < |keys| ==> Canonical(keys[i])
    ensures Incomparable(keys)
  {
    forall i, j | 0 <= i < |keys| && 0 <= j < |keys| && keys[i] != keys[j]
      ensures !(Components(NormPrefix(keys[i])) <= Components(NormPrefix(keys[j])))
    {
      assert keys[i] != "/" && keys[j] != "/" by {
        assert |keys| == 1 ==> i == j;
        assert AcceptedAlone(keys[i], |keys|) && AcceptedAlone(keys[j], |keys|);
      }
      IncomparablePair(keys[i], keys[j], |keys|);
    }
  }

  lemma IncomparablePair(p: string, q: string, count: nat)
    requires AcceptedAlone(p, count) && AcceptedAlone(q, count) && Canonical(p) && Canonical(q) && p != "/" && q != "/"
    requires !(p <= q) && !(q <= p)
    ensures !(Components(NormPrefix(p)) <= Components(NormPrefix(q)))
  {
    NormPrefixKeepsNames(p, count);
    NormPrefixKeepsNames(q, count);
    if Normals(Names(p)) <= Normals(Names(q)) {
      PrefixNames(Names(p), Names(q));
      StartsKey(p, q, count);
    }
  }

  lemma PrefixNames(a: seq<string>, b: seq<string>)
    requires Normals(a) <= Normals(b)
    ensures a <= b
  {
    forall i | 0 <= i < |a| ensures a[i] == b[i] {
      assert Normals(a)[i] == Normals(b)[i];
    }
  }

  lemma StartsKey(p: string, q: string, count: nat)
    requires AcceptedAlone(p, count) && AcceptedAlone(q, count) && Canonical(p) && Canonical(q) && p != "/" && q != "/"
    requires Names(p) <= Names(q)
    ensures p <= q || q <= p
  {
    CanonicalKey(p, count);
    CanonicalKey(q, count);
    if p != "" {
      JoinOfPrefix(Names(p), Names(q));
    }
  }

  lemma PrefixesComparable(a: Path, b: Path, c: Path)
    requires a <= c && b <= c
    ensures a <= b || b <= a
  {
    assert if |a| <= |b| then a == c[..|b|][..|a|] else b == c[..|a|][..|b|];
  }

  /** Exactly when every path has at most one prefix, whatever order the keys come in. */
  lemma UniqueSplitIff(keys: seq<string>)
    ensures (forall path, i, j :: 0 <= i < |keys| && 0 <= j < |keys| && Matches(keys[i], path) && Matches(keys[j], path) ==> keys[i] == keys[j])
       <==> Incomparable(keys)
  {
    if Incomparable(keys) {
      forall path: Path, i, j | 0 <= i < |keys| && 0 <= j < |keys| && Matches(keys[i], path) && Matches(keys[j], path)
        ensures keys[i] == keys[j]
      {
        PrefixesComparable(Components(NormPrefix(keys[i])), Components(NormPrefix(keys[j])), path);
      }
    } else {
      var i, j :| 0 <= i < |keys| && 0 <= j < |keys| && keys[i] != keys[j] &&
        Components(NormPrefix(keys[i])) <= Components(NormPrefix(keys[j]));
      var path := Components(NormPrefix(keys[j]));
      assert Matches(keys[i], path) && Matches(keys[j], path);
    }
  }

  /** The split a path has does not depend on the order of the keys. */
  lemma {:induction false} SplitFindsTheOne(keys: seq<string>, path: Path, i: nat)
    requires Incomparable(keys) && i < |keys| && Matches(keys[i], path)
    ensures SplitPrefixAddr(keys, path) == Some((keys[i], path[|Components(NormPrefix(keys[i]))|..]))
  {
    UniqueSplitIff(keys);
    if i > 0 {
      if !Matches(keys[0], path) {
        var rest := keys[1..];
        assert forall k :: 0 <= k < |rest| ==> rest[k] == keys[k + 1];
        SplitFindsTheOne(rest, path, i - 1);
      } else {
        assert Matches(keys[i], path) && Matches(keys[0], path);
      }
    }
  }

  /** As `components()` yields them: the root comes first or not at all. */
  predicate RootFirst(p: Path) {
    forall i :: 0 < i < |p| ==> !p[i].RootDir?
  }

  /** `Path::join`: an absolute path replaces what it is joined to. */
  function PathJoin(p: Path, q: Path): Path {
    if q != [] && q[0].RootDir? then q else p + q
  }

  /** Prefix and address give back the path, but not a relative path split at `/`. */
  lemma {:induction false} SplitJoinsIff(keys: seq<string>, path: Path)
    requires Accepted(keys) && forall i :: 0 <= i < |keys| ==> Canonical(keys[i])
    requires SplitPrefixAddr(keys, path).Some? && RootFirst(path)
    ensures var (key, addr) := SplitPrefixAddr(keys, path).value;
      PathJoin(Components(key), addr) == path <==> (key != "/" || (path != [] && path[0].RootDir?))
  {
    var i := MatchingKey(keys, path);
    SplitNow(keys[i..], path);
    if keys[i] == "/" {
      SlashComponents();
      JoinAtRoot(path);
    } else {
      JoinAtNames(keys[i], |keys|, path);
    }
  }

  lemma JoinAtRoot(path: Path)
    ensures PathJoin([RootDir], path) == path <==> path != [] && path[0].RootDir?
  {
    assert path == [] || !path[0].RootDir? ==> |PathJoin([RootDir], path)| == |path| + 1;
  }

  lemma JoinAtNames(key: string, count: nat, path: Path)
    requires AcceptedAlone(key, count) && Canonical(key) && key != "/" && Matches(key, path) && RootFirst(path)
    ensures PathJoin(Components(key), path[|Components(NormPrefix(key))|..]) == path
  {
    NormPrefixKeepsNames(key, count);
    CanonicalKey(key, count);
    JoinSplit(Components(key), path);
  }

  lemma JoinSplit(p: Path, path: Path)
    requires p <= path && RootFirst(path)
    ensures PathJoin(p, path[|p|..]) == path
  {
    assert path == p + path[|p|..];
  }

  lemma SlashComponents()
    ensures Components("/") == [RootDir] && Components(NormPrefix("/")) == []
  {
    assert Parts("/") == [""] + Parts("") == ["", ""];
    assert Normalized(["", ""]) == [];
    assert "/"[..0] == "";
  }

  lemma SplitNow(keys: seq<string>, path: Path)
    requires keys != [] && Matches(keys[0], path)
    ensures SplitPrefixAddr(keys, path) == Some((keys[0], path[|Components(NormPrefix(keys[0]))|..]))
  {}

  lemma SplitLater(keys: seq<string>, path: Path)
    requires keys != [] && !Matches(keys[0], path)
    ensures SplitPrefixAddr(keys, path) == SplitPrefixAddr(keys[1..], path)
  {}

  lemma {:induction false} MatchingKey(keys: seq<string>, path: Path) returns (i: nat)
    requires SplitPrefixAddr(keys, path).Some?
    ensures i < |keys| && Matches(keys[i], path)
    ensures SplitPrefixAddr(keys, path) == SplitPrefixAddr(keys[i..], path)
  {
    if Matches(keys[0], path) {
      i := 0;
    } else {
      SplitLater(keys, path);
      var k := MatchingKey(keys[1..], path);
      i := k + 1;
      DropTwice(keys, 1, k);
    }
  }

  /** A key without a slash at either end that is not trimmed to something else. */
  lemma {:induction false} PlainKey(key: string, names: seq<string>)
    requires names != [] && (forall i :: 0 <= i < |names| ==> '/' !in names[i]) && key == Join(names)
    requires names[0] != "" && names[0] != "." && names[|names| - 1] != "" && Trim(key) == key
    requires forall c :: c in Normalized(names) ==> c.Normal?
    ensures AcceptedAlone(key, 2) && Components(key) == Normalized(names) && NormPrefix(key) == key
  {
    PartsOfJoin(names);
    NamesStart(names);
    LastPart(key);
    StripSlash(key, key);
  }

  /** A part that is an ordinary name at the start and at the end of a key. */
  predicate Plain(name: string) {
    && name != "" && name != "." && name != ".." && '/' !in name
    && !IsWhitespace(name[0]) && !IsWhitespace(name[|name| - 1])
  }

  lemma JoinOfTwo(x: string, y: string)
    ensures Join([x, y]) == x + "/" + y && Normalized([x, y]) == OfPart(x) + OfPart(y)
  {
    assert [x, y][1..] == [y];
    assert Normalized([y]) == OfPart(y) + Normalized([]);
  }

  lemma JoinOfThree(x: string, y: string)
    ensures Join([x, "", y]) == x + "/" + ("/" + y) && Normalized([x, "", y]) == OfPart(x) + OfPart(y)
  {
    JoinOfTwo("", y);
    assert [x, "", y][1..] == ["", y];
    assert "" + "/" + y == "/" + y && OfPart("") + OfPart(y) == OfPart(y);
  }

  lemma TrimmedKey(x: string, sep: string, y: string)
    requires Plain(x) && Plain(y)
    ensures Trim(x + sep + y) == x + sep + y
  {
    var key := x + sep + y;
    assert key[0] == x[0] && key[|key| - 1] == y[|y| - 1];
  }

  lemma {:induction false} SingleSlashKey(x: string, y: string)
    requires Plain(x) && Plain(y)
    ensures var key := x + "/" + y; AcceptedAlone(key, 2) && Components(NormPrefix(key)) == [Normal(x), Normal(y)]
  {
    JoinOfTwo(x, y);
    TrimmedKey(x, "/", y);
    PlainKey(x + "/" + y, [x, y]);
  }

  lemma DoubleSlashKey(x: string, y: string)
    requires Plain(x) && Plain(y)
    ensures var key := x + "/" + ("/" + y); AcceptedAlone(key, 2) && Components(NormPrefix(key)) == [Normal(x), Normal(y)]
  {
    JoinOfThree(x, y);
    TrimmedKey(x, "//", y);
    assert x + "//" + y == x + "/" + ("/" + y);
    PlainKey(x + "/" + ("/" + y), [x, "", y]);
  }

  lemma AcceptedPair(p: string, q: string)
    requires AcceptedAlone(p, 2) && AcceptedAlone(q, 2) && !(p <= q) && !(q <= p)
    ensures Accepted([p, q])
  {}

  lemma SplitAtFirst(p: string, rest: seq<string>, cs: Path, addr: Path)
    requires Components(NormPrefix(p)) == cs
    ensures SplitPrefixAddr([p] + rest, cs + addr) == Some((p, addr))
  {
    assert (cs + addr)[|cs|..] == addr;
  }

  lemma SeparatorsDiffer(x: string, y: string)
    requires Plain(y)
    ensures !(x + "/" + y <= x + "/" + ("/" + y)) && !(x + "/" + ("/" + y) <= x + "/" + y)
  {
    var p, q := x + "/" + y, x + "/" + ("/" + y);
    assert p[|x| + 1] == y[0] && q[|x| + 1] == '/' && y[0] in y;
  }

  /** Doubled slashes are not seen by the validation: both keys are accepted, both match,
      and the order of the keys decides. */
  lemma {:induction false} DoubledSlashIsAmbiguous(x: string, y: string, addr: Path) returns (p: string, q: string)
    requires Plain(x) && Plain(y)
    ensures p == x + "/" + y && q == x + "/" + ("/" + y) && p != q
    ensures Accepted([p, q]) && Accepted([q, p])
    ensures SplitPrefixAddr([p] + [q], [Normal(x), Normal(y)] + addr) == Some((p, addr))
    ensures SplitPrefixAddr([q] + [p], [Normal(x), Normal(y)] + addr) == Some((q, addr))
  {
    p, q := x + "/" + y, x + "/" + ("/" + y);
    SingleSlashKey(x, y);
    DoubleSlashKey(x, y);
    SeparatorsDiffer(x, y);
    AcceptedPair(p, q);
    AcceptedPair(q, p);
    SplitAtFirst(p, [q], [Normal(x), Normal(y)], addr);
    SplitAtFirst(q, [p], [Normal(x), Normal(y)], addr);
  }

  // --------------------------------------------------------------- output files

  /** `OutputMapFile::path`: parents keep their normal components only, and a path without
      a file name gets the bare suffix. */
  function OutputPath(prefix: Path, addr: Path): Path {
    var parents := if addr == [] then [] else OnlyNormal(addr[..|addr| - 1]);
    var file := if addr != [] && addr[|addr| - 1].Normal? then addr[|addr| - 1].name else "";
    [Normal(".autoschematic")] + prefix + parents + [Normal(file + OUT)]
  }

  function OnlyNormal(p: Path): Path {
    if p == [] then [] else (if p[0].Normal? then [p[0]] else []) + OnlyNormal(p[1..])
  }

  /** No two (prefix, address) pairs of an accepted configuration share an output file. */
  lemma OutputPathInjective(keys: seq<string>, i: nat, j: nat, a: seq<string>, b: seq<string>)
    requires Accepted(keys) && forall k :: 0 <= k < |keys| ==> Canonical(keys[k]) && keys[k] != "/"
    requires i < |keys| && j < |keys|
    requires "" !in a && "" !in b
    requires OutputPath(Components(keys[i]), Normals(a)) == OutputPath(Components(keys[j]), Normals(b))
    ensures keys[i] == keys[j] && a == b
  {
    var p, q := Components(keys[i]), Components(keys[j]);
    SameOutputPath(p, q, a, b);
    NormPrefixKeepsNames(keys[i], |keys|);
    CanonicalKey(keys[i], |keys|);
    NormPrefixKeepsNames(keys[j], |keys|);
    CanonicalKey(keys[j], |keys|);
    AcceptedIsIncomparable(keys);
    if keys[i] == keys[j] {
      SameAddress(p, a, b);
    }
  }

  lemma {:induction false} OnlyNormalOfNormals(p: Path)
    requires forall i :: 0 <= i < |p| ==> p[i].Normal?
    ensures OnlyNormal(p) == p
  {
    if p != [] {
      OnlyNormalOfNormals(p[1..]);
    }
  }

  const OUT := ".out.json"

  /** The parents of an address and its lengthened last name. */
  function FileOf(a: seq<string>): Path {
    if a == [] then [Normal(OUT)] else Normals(a[..|a| - 1]) + [Normal(a[|a| - 1] + OUT)]
  }

  /** The output path is the path itself below `.autoschematic`, its last name lengthened. */
  lemma OutputPathOfNormals(p: Path, a: seq<string>)
    ensures OutputPath(p, Normals(a)) == [Normal(".autoschematic")] + p + FileOf(a)
  {
    var top := [Normal(".autoschematic")] + p;
    if a != [] {
      assert Normals(a)[..|a| - 1] == Normals(a[..|a| - 1]);
      OnlyNormalOfNormals(Normals(a[..|a| - 1]));
      Associative(top, Normals(a[..|a| - 1]), [Normal(a[|a| - 1] + OUT)]);
    } else {
      assert top + [] == top && "" + OUT == OUT;
    }
  }

  lemma SameOutputPath(p: Path, q: Path, a: seq<string>, b: seq<string>)
    requires OutputPath(p, Normals(a)) == OutputPath(q, Normals(b))
    ensures p <= q || q <= p
  {
    OutputPathOfNormals(p, a);
    OutputPathOfNormals(q, b);
    var x := OutputPath(p, Normals(a));
    InMiddle(p, x, FileOf(a));
    InMiddle(q, x, FileOf(b));
    PrefixesComparable(p, q, x[1..]);
  }

  lemma InMiddle(p: Path, x: Path, rest: Path)
    requires x == [Normal(".autoschematic")] + p + rest
    ensures p <= x[1..]
  {
    assert x[1..] == p + rest;
  }

  lemma SameLast(x: Path, y: Path, c: Component, d: Component)
    requires x + [c] == y + [d]
    ensures x == y && c == d
  {
    assert |x + [c]| == |y + [d]|;
    assert (x + [c])[..|x|] == x && (y + [d])[..|y|] == y && (x + [c])[|x|] == c && (y + [d])[|y|] == d;
  }

  lemma NormalsInjective(a: seq<string>, b: seq<string>)
    requires Normals(a) == Normals(b)
    ensures a == b
  {
    forall i | 0 <= i < |a| ensures a[i] == b[i] {
      assert Normals(a)[i] == Normals(b)[i];
    }
  }

  /** The last name of an address is not empty, so its file has more to its name. */
  lemma NamedFile(a: seq<string>)
    requires a != [] && "" !in a
    ensures FileOf(a) != [Normal(OUT)]
  {
    assert a[|a| - 1] in a && |a[|a| - 1] + OUT| > |OUT|;
    assert FileOf(a)[|FileOf(a)| - 1] == Normal(a[|a| - 1] + OUT);
  }

  lemma SameFile(a: seq<string>, b: seq<string>)
    requires a != [] && b != [] && FileOf(a) == FileOf(b)
    ensures a == b
  {
    var m, n := |a| - 1, |b| - 1;
    SameLast(Normals(a[..m]), Normals(b[..n]), Normal(a[m] + OUT), Normal(b[n] + OUT));
    NormalsInjective(a[..m], b[..n]);
    SameSuffix(a[m], b[n], OUT, Normal(a[m] + OUT), Normal(b[n] + OUT));
    assert a == a[..m] + [a[m]] && b == b[..n] + [b[n]];
  }

  lemma SameAddress(p: Path, a: seq<string>, b: seq<string>)
    requires "" !in a && "" !in b && OutputPath(p, Normals(a)) == OutputPath(p, Normals(b))
    ensures a == b
  {
    OutputPathOfNormals(p, a);
    OutputPathOfNormals(p, b);
    SameRest([Normal(".autoschematic")] + p, FileOf(a), FileOf(b));
    if a != [] && b != [] {
      SameFile(a, b);
    } else if a != [] {
      NamedFile(a);
    } else if b != [] {
      NamedFile(b);
    }
  }

  lemma SameSuffix(f: string, g: string, suffix: string, x: Component, y: Component)
    requires x == Normal(f + suffix) && y == Normal(g + suffix) && x == y
    ensures f == g
  {
    assert (f + suffix)[..|f|] == f && (g + suffix)[..|g|] == g;
  }
}
