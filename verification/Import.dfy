/** Choosing what to import: address filters with `*`, the subspaces a connector lists, and
    the neighbours that keep an address to themselves. */
module Import {
  import opened Collections
  import opened Paths
  import opened Wrappers

  // ---------------------------------------------------- addr_matches_filter

  function WithoutDots(p: Path): Path {
    if p == [] then [] else (if p[0].CurDir? then [] else [p[0]]) + WithoutDots(p[1..])
  }

  predicate ComponentMatches(full: Component, filter: Component) {
    full.Normal? && filter.Normal? && (full.name == filter.name || filter.name == "*")
  }

  predicate AllMatch(full: Path, filter: Path) {
    && |filter| <= |full|
    && forall i :: 0 <= i < |filter| ==> ComponentMatches(full[i], filter[i])
  }

  /** As if the filter ended in `**` and a star. */
  predicate AddrMatchesFilter(addr: Path, filter: Path) {
    AllMatch(WithoutDots(addr), WithoutDots(filter))
  }

  predicate AllNormal(p: Path) {
    forall i :: 0 <= i < |p| ==> p[i].Normal?
  }

  predicate StarFree(p: Path) {
    forall i :: 0 <= i < |p| ==> p[i] != Normal("*")
  }

  lemma {:induction false} WithoutDotsOfNormal(p: Path)
    requires AllNormal(p)
    ensures WithoutDots(p) == p
  {
    if p != [] {
      WithoutDotsOfNormal(p[1..]);
    }
  }

  /** Every address without `..` and without a root matches itself, and no other does. */
  lemma MatchesItselfIff(p: Path)
    ensures AddrMatchesFilter(p, p) <==> AllNormal(WithoutDots(p))
  {}

  lemma MatchesTransitive(a: Path, f: Path, g: Path)
    requires AddrMatchesFilter(a, f) && AddrMatchesFilter(f, g)
    ensures AddrMatchesFilter(a, g)
  {
    var x, y, z := WithoutDots(a), WithoutDots(f), WithoutDots(g);
    forall i | 0 <= i < |z| ensures ComponentMatches(x[i], z[i]) {
      assert ComponentMatches(x[i], y[i]) && ComponentMatches(y[i], z[i]);
    }
  }

  /** Without stars, matching is being below. */
  lemma MatchesIsBelow(a: Path, f: Path)
    requires AllNormal(a) && AllNormal(f) && StarFree(f)
    ensures AddrMatchesFilter(a, f) <==> f <= a
  {
    WithoutDotsOfNormal(a);
    WithoutDotsOfNormal(f);
    if AllMatch(a, f) {
      forall i | 0 <= i < |f| ensures f[i] == a[i] {
        assert ComponentMatches(a[i], f[i]);
      }
    }
  }

  // ------------------------------------------------------------- subspaces

  /** A subspace is listed if it lies in the requested subpath, or the other way round. */
  predicate Selected(subspace: Path, subpath: Path) {
    AddrMatchesFilter(subspace, subpath) || AddrMatchesFilter(subpath, subspace)
  }

  lemma {:induction false} DotsAreNoStars(p: Path)
    requires StarFree(p)
    ensures StarFree(WithoutDots(p))
  {
    if p != [] {
      assert forall i :: 0 <= i < |p[1..]| ==> p[1..][i] == p[i + 1];
      DotsAreNoStars(p[1..]);
    }
  }

  /** The subpath does not cut the subspace short with a star. */
  predicate Reaches(subspace: Path, subpath: Path) {
    var c, s := WithoutDots(subspace), WithoutDots(subpath);
    |s| <= |c| || StarFree(s[..|c|])
  }

  /** Of the subspaces that hold a requested address, exactly those are listed that the
      subpath does not cut short with a star. */
  lemma SelectedIff(a: Path, subspace: Path, subpath: Path)
    requires StarFree(subspace) && AddrMatchesFilter(a, subspace) && AddrMatchesFilter(a, subpath)
    ensures Selected(subspace, subpath) <==> Reaches(subspace, subpath)
  {
    DotsAreNoStars(subspace);
    CutShortIff(WithoutDots(a), WithoutDots(subspace), WithoutDots(subpath));
  }

  lemma CutShortIff(x: Path, c: Path, s: Path)
    requires StarFree(c) && AllMatch(x, c) && AllMatch(x, s)
    ensures AllMatch(c, s) || AllMatch(s, c) <==> |s| <= |c| || StarFree(s[..|c|])
  {
    forall i | 0 <= i < |c| ensures c[i] == x[i] && c[i].Normal? {
      assert ComponentMatches(x[i], c[i]) && c[i] != Normal("*");
    }
    assert forall i :: 0 <= i < |s| ==> ComponentMatches(x[i], s[i]);
    if |s| <= |c| {
      assert AllMatch(c, s);
    } else if StarFree(s[..|c|]) {
      forall i | 0 <= i < |c| ensures ComponentMatches(s[i], c[i]) {
        assert s[..|c|][i] == s[i] && ComponentMatches(x[i], s[i]);
      }
    } else {
      var i :| 0 <= i < |c| && s[..|c|][i] == Normal("*");
      assert !ComponentMatches(s[i], c[i]);
    }
  }

  // --------------------------------------------------------------- importing

  /** One connector of one prefix. */
  datatype Source = Source(
    prefix: string,
    group: seq<string>,                       // the prefixes of its resource group, if it has one
    subspaces: seq<Path>,                     // Connector::subpaths()
    list: Path -> Result<seq<Path>>,          // Connector::list(subspace)
    present: (string, Path) -> bool)          // the prefix has the resource or its output file

  predicate Elsewhere(s: Source, addr: Path) {
    exists p :: p in s.group && p != s.prefix && s.present(p, addr)
  }

  function Chosen(s: Source, subpath: Path, listed: seq<Path>): seq<Path> {
    if listed == [] then []
    else ChosenOne(s, subpath, listed[0]) + Chosen(s, subpath, listed[1..])
  }

  function ChosenOne(s: Source, subpath: Path, a: Path): seq<Path> {
    if AddrMatchesFilter(a, subpath) && !Elsewhere(s, a) then [a] else []
  }

  function ChosenFrom(s: Source, subpath: Path, subspaces: seq<Path>): Result<seq<Path>> {
    if subspaces == [] then Ok([])
    else if !Selected(subspaces[0], subpath) then ChosenFrom(s, subpath, subspaces[1..])
    else match s.list(subspaces[0])
      case Err => Err
      case Ok(listed) =>
        match ChosenFrom(s, subpath, subspaces[1..])
        case Err => Err
        case Ok(rest) => Ok(Chosen(s, subpath, listed) + rest)
  }

  method FoundElsewhere(s: Source, addr: Path) returns (found: bool)
    ensures found <==> Elsewhere(s, addr)
  {
    for i := 0 to |s.group|
      invariant forall p :: p in s.group[..i] && p != s.prefix ==> !s.present(p, addr)
    {
      assert s.group[..i + 1] == s.group[..i] + [s.group[i]];
      if s.group[i] != s.prefix && s.present(s.group[i], addr) {
        assert s.group[i] in s.group;
        return true;
      }
    }
    assert s.group[..|s.group|] == s.group;
    found := false;
  }

  /** The loops of `import_all` for one connector; `spawned` are the addresses handed to
      `import_resource`, in order. */
  method ImportFrom(s: Source, subpath: Path) returns (ok: bool, spawned: seq<Path>)
    ensures ok <==> ChosenFrom(s, subpath, s.subspaces).Ok?
    ensures ok ==> spawned == ChosenFrom(s, subpath, s.subspaces).value
  {
    spawned := [];
    assert s.subspaces[0..] == s.subspaces;
    assert forall r: seq<Path> :: [] + r == r;
    for i := 0 to |s.subspaces|
      invariant ChosenFrom(s, subpath, s.subspaces) == Prepend(spawned, ChosenFrom(s, subpath, s.subspaces[i..]))
    {
      assert s.subspaces[i..][1..] == s.subspaces[i + 1..];
      ghost var rest := ChosenFrom(s, subpath, s.subspaces[i + 1..]);
      if !(AddrMatchesFilter(s.subspaces[i], subpath) || AddrMatchesFilter(subpath, s.subspaces[i])) {
        continue;
      }
      var answer := s.list(s.subspaces[i]);
      if answer.Err? {
        return false, spawned;
      }
      var chosen := ChooseFrom(s, subpath, answer.value);
      if rest.Ok? {
        assert spawned + (chosen + rest.value) == spawned + chosen + rest.value;
      }
      spawned := spawned + chosen;
    }
    ok := true;
  }

  function Prepend(a: seq<Path>, r: Result<seq<Path>>): Result<seq<Path>> {
    match r case Err => Err case Ok(b) => Ok(a + b)
  }

  lemma ChosenNext(s: Source, subpath: Path, listed: seq<Path>, k: nat, chosen: seq<Path>)
    requires k < |listed|
    ensures chosen + Chosen(s, subpath, listed[k..]) == chosen + ChosenOne(s, subpath, listed[k]) + Chosen(s, subpath, listed[k + 1..])
  {
    assert listed[k..][1..] == listed[k + 1..];
    Associative(chosen, ChosenOne(s, subpath, listed[k]), Chosen(s, subpath, listed[k + 1..]));
  }

  method ChooseFrom(s: Source, subpath: Path, listed: seq<Path>) returns (chosen: seq<Path>)
    ensures chosen == Chosen(s, subpath, listed)
  {
    chosen := [];
    assert listed[0..] == listed;
    for k := 0 to |listed|
      invariant chosen + Chosen(s, subpath, listed[k..]) == Chosen(s, subpath, listed)
    {
      ChosenNext(s, subpath, listed, k, chosen);
      if !AddrMatchesFilter(listed[k], subpath) {
        continue;
      }
      var elsewhere := FoundElsewhere(s, listed[k]);
      if elsewhere {
        continue;
      }
      chosen := chosen + [listed[k]];
    }
  }

  // ------------------------------------------------------------ nothing missed

  lemma {:induction false} ChosenIs(s: Source, subpath: Path, listed: seq<Path>, a: Path)
    ensures a in Chosen(s, subpath, listed) <==> a in listed && AddrMatchesFilter(a, subpath) && !Elsewhere(s, a)
  {
    if listed != [] {
      ChosenIs(s, subpath, listed[1..], a);
      assert listed == [listed[0]] + listed[1..];
    }
  }

  lemma {:induction false} ChosenFromIs(s: Source, subpath: Path, subspaces: seq<Path>, a: Path)
    requires ChosenFrom(s, subpath, subspaces).Ok?
    ensures a in ChosenFrom(s, subpath, subspaces).value <==>
              && AddrMatchesFilter(a, subpath) && !Elsewhere(s, a)
              && exists c :: c in subspaces && Selected(c, subpath) && s.list(c).Ok? && a in s.list(c).value
  {
    if subspaces != [] {
      var c, rest := subspaces[0], subspaces[1..];
      assert subspaces == [c] + rest;
      ChosenFromIs(s, subpath, rest, a);
      if Selected(c, subpath) {
        ChosenIs(s, subpath, s.list(c).value, a);
      }
    }
  }

  /** Each subspace is listed completely, and is free of stars. */
  ghost predicate Complete(s: Source, remote: set<Path>) {
    && (forall c :: c in s.subspaces ==> StarFree(c) && s.list(c).Ok?)
    && (forall c, a :: c in s.subspaces ==> (a in s.list(c).value <==> a in remote && AddrMatchesFilter(a, c)))
  }

  ghost predicate Covered(s: Source, remote: set<Path>) {
    forall a :: a in remote ==> exists c :: c in s.subspaces && AddrMatchesFilter(a, c)
  }

  /** Whatever subpath is asked for: an address is passed on if and only if it exists, matches,
      is not kept elsewhere in the resource group, and is held by a subspace that the subpath
      does not cut short with a star. */
  lemma ImportFindsIff(s: Source, subpath: Path, remote: set<Path>, a: Path)
    requires Complete(s, remote)
    ensures ChosenFrom(s, subpath, s.subspaces).Ok?
    ensures a in ChosenFrom(s, subpath, s.subspaces).value <==>
              && a in remote && AddrMatchesFilter(a, subpath) && !Elsewhere(s, a)
              && exists c :: c in s.subspaces && AddrMatchesFilter(a, c) && Reaches(c, subpath)
  {
    ChosenFromOk(s, subpath, s.subspaces);
    ChosenFromIs(s, subpath, s.subspaces, a);
    if AddrMatchesFilter(a, subpath) {
      HeldIff(s, subpath, remote, a);
    }
  }

  /** A selected subspace lists the address exactly if one holds it that is not cut short. */
  lemma HeldIff(s: Source, subpath: Path, remote: set<Path>, a: Path)
    requires Complete(s, remote) && AddrMatchesFilter(a, subpath)
    ensures (exists c :: c in s.subspaces && Selected(c, subpath) && s.list(c).Ok? && a in s.list(c).value)
       <==> a in remote && exists c :: c in s.subspaces && AddrMatchesFilter(a, c) && Reaches(c, subpath)
  {
    forall c | c in s.subspaces && AddrMatchesFilter(a, c) ensures Selected(c, subpath) <==> Reaches(c, subpath) {
      SelectedIff(a, c, subpath);
    }
    if a in remote {
      if c :| c in s.subspaces && AddrMatchesFilter(a, c) && Reaches(c, subpath) {
        assert Selected(c, subpath) && a in s.list(c).value;
      }
    }
  }

  /** So if the subspaces cover what exists, importing below a subpath without stars passes on
      exactly what exists below it and is not kept elsewhere. */
  lemma ImportMissesNothing(s: Source, subpath: Path, remote: set<Path>, a: Path)
    requires Complete(s, remote) && Covered(s, remote) && StarFree(subpath)
    ensures ChosenFrom(s, subpath, s.subspaces).Ok?
    ensures a in ChosenFrom(s, subpath, s.subspaces).value <==> a in remote && AddrMatchesFilter(a, subpath) && !Elsewhere(s, a)
  {
    ImportFindsIff(s, subpath, remote, a);
    DotsAreNoStars(subpath);
    if a in remote {
      var c :| c in s.subspaces && AddrMatchesFilter(a, c);
      assert Reaches(c, subpath);
    }
  }

  lemma {:induction false} ChosenFromOk(s: Source, subpath: Path, subspaces: seq<Path>)
    requires forall i :: 0 <= i < |subspaces| ==> s.list(subspaces[i]).Ok?
    ensures ChosenFrom(s, subpath, subspaces).Ok?
  {
    if subspaces != [] {
      ChosenFromOk(s, subpath, subspaces[1..]);
    }
  }

  /** A star can hide a subspace: `*` and a name below it select nothing in a subspace that
      holds the address, which is then not imported. */
  lemma StarMissesAddress(x: string, y: string, s: Source)
    requires x != "*" && s.subspaces == [[Normal(x)]] && Complete(s, {[Normal(x), Normal(y)]})
    ensures var a, subpath := [Normal(x), Normal(y)], [Normal("*"), Normal(y)];
      AddrMatchesFilter(a, subpath) && a in s.list([Normal(x)]).value
      && ChosenFrom(s, subpath, s.subspaces).Ok? && a !in ChosenFrom(s, subpath, s.subspaces).value
  {
    var a, subpath, c := [Normal(x), Normal(y)], [Normal("*"), Normal(y)], [Normal(x)];
    WithoutDotsOfNormal(a);
    WithoutDotsOfNormal(subpath);
    WithoutDotsOfNormal(c);
    MatchesIsBelow(a, c);
    assert subpath[..1][0] == Normal("*");
    ImportFindsIff(s, subpath, {a}, a);
  }
}
