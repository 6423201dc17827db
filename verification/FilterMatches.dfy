/** Address filters with dots, roots and parents in them, and how often an address is imported. */
module FilterMatches {
  import opened Collections
  import opened Paths
  import opened Wrappers
  import opened Import

  lemma {:induction false} WithoutDotsAppend(p: Path, q: Path)
    ensures WithoutDots(p + q) == WithoutDots(p) + WithoutDots(q)
  {
    if p == [] {
      assert p + q == q;
    } else {
      assert (p + q)[1..] == p[1..] + q;
      WithoutDotsAppend(p[1..], q);
      Associative(if p[0].CurDir? then [] else [p[0]], WithoutDots(p[1..]), WithoutDots(q));
    }
  }

  /** A dot does not count, wherever it stands, in an address or in a filter. */
  lemma DotsDoNotCount(p: Path, q: Path, other: Path)
    ensures AddrMatchesFilter(p + [CurDir] + q, other) <==> AddrMatchesFilter(p + q, other)
    ensures AddrMatchesFilter(other, p + [CurDir] + q) <==> AddrMatchesFilter(other, p + q)
  {
    WithoutDotsAppend(p + [CurDir], q);
    WithoutDotsAppend(p, [CurDir]);
    WithoutDotsAppend(p, q);
    assert [CurDir][1..] == [];
    assert WithoutDots([CurDir]) == [];
    assert WithoutDots(p) + [] == WithoutDots(p);
  }

  /** The default subspace and subpath `./` match everything. */
  lemma DotMatchesAll(a: Path)
    ensures AddrMatchesFilter(a, [CurDir]) && AddrMatchesFilter(a, [])
  {
    assert [CurDir][1..] == [];
    assert WithoutDots([CurDir]) == [];
  }

  /** Names match themselves, `*` matches any name, and a filter matches whatever lies below. */
  lemma NamesMatchIff(a: Path, f: Path)
    requires Import.AllNormal(a) && Import.AllNormal(f)
    ensures AddrMatchesFilter(a, f) <==> |f| <= |a| && forall i :: 0 <= i < |f| ==> f[i] == a[i] || f[i] == Normal("*")
  {
    WithoutDotsOfNormal(a);
    WithoutDotsOfNormal(f);
  }

  /** A filter with a root or a `..` in it matches nothing. */
  lemma OddFiltersMatchNothing(a: Path, p: Path, c: Component, q: Path)
    requires c.RootDir? || c.ParentDir?
    ensures !AddrMatchesFilter(a, p + [c] + q)
  {
    WithoutDotsAppend(p + [c], q);
    WithoutDotsAppend(p, [c]);
    assert [c][1..] == [] && WithoutDots([c]) == [c] + [];
    var f := WithoutDots(p + [c] + q);
    assert f[|WithoutDots(p)|] == c;
  }

  // -------------------------------------------------------------- how often

  lemma {:induction false} ChosenCount(s: Source, subpath: Path, listed: seq<Path>, a: Path)
    ensures multiset(Chosen(s, subpath, listed))[a] ==
            if AddrMatchesFilter(a, subpath) && !Elsewhere(s, a) then multiset(listed)[a] else 0
  {
    if listed != [] {
      ChosenCount(s, subpath, listed[1..], a);
      assert listed == [listed[0]] + listed[1..];
    }
  }

  /** How often the address is listed, by all selected subspaces together. */
  function Listings(s: Source, subpath: Path, subspaces: seq<Path>, a: Path): nat {
    if subspaces == [] then 0
    else (if Selected(subspaces[0], subpath) && s.list(subspaces[0]).Ok? then multiset(s.list(subspaces[0]).value)[a] else 0)
         + Listings(s, subpath, subspaces[1..], a)
  }

  /** An address is imported as often as it is listed: twice where two subspaces overlap. */
  lemma {:induction false} ImportedAsListed(s: Source, subpath: Path, subspaces: seq<Path>, a: Path)
    requires ChosenFrom(s, subpath, subspaces).Ok?
    ensures multiset(ChosenFrom(s, subpath, subspaces).value)[a] ==
            if AddrMatchesFilter(a, subpath) && !Elsewhere(s, a) then Listings(s, subpath, subspaces, a) else 0
  {
    if subspaces != [] {
      ImportedAsListed(s, subpath, subspaces[1..], a);
      if Selected(subspaces[0], subpath) {
        ChosenCount(s, subpath, s.list(subspaces[0]).value, a);
      }
    }
  }

  /** The import of a connector fails exactly if listing a selected subspace does. */
  lemma {:induction false} ImportFailsIff(s: Source, subpath: Path, subspaces: seq<Path>)
    ensures ChosenFrom(s, subpath, subspaces).Err? <==>
              exists i :: 0 <= i < |subspaces| && Selected(subspaces[i], subpath) && s.list(subspaces[i]).Err?
  {
    if subspaces != [] {
      ImportFailsIff(s, subpath, subspaces[1..]);
      if i :| 0 <= i < |subspaces[1..]| && Selected(subspaces[1..][i], subpath) && s.list(subspaces[1..][i]).Err? {
        assert subspaces[i + 1] == subspaces[1..][i];
      }
      if i :| 0 < i < |subspaces| && Selected(subspaces[i], subpath) && s.list(subspaces[i]).Err? {
        assert subspaces[1..][i - 1] == subspaces[i];
      }
    }
  }

  // -------------------------------------------------------------- neighbours

  /** What another prefix of the resource group has is not imported. */
  lemma NeighbourKeeps(s: Source, subpath: Path, p: string, a: Path)
    requires p in s.group && p != s.prefix && s.present(p, a) && ChosenFrom(s, subpath, s.subspaces).Ok?
    ensures a !in ChosenFrom(s, subpath, s.subspaces).value
  {
    ChosenFromIs(s, subpath, s.subspaces, a);
  }

  /** What the prefix itself has is no obstacle, nor what prefixes outside of the group have. */
  lemma OwnIsNoObstacle(s: Source, subpath: Path, c: Path, a: Path)
    requires forall p :: p in s.group && p != s.prefix ==> !s.present(p, a)
    requires c in s.subspaces && Selected(c, subpath) && s.list(c).Ok? && a in s.list(c).value && AddrMatchesFilter(a, subpath)
    requires ChosenFrom(s, subpath, s.subspaces).Ok?
    ensures a in ChosenFrom(s, subpath, s.subspaces).value
  {
    ChosenFromIs(s, subpath, s.subspaces, a);
  }
}
