/** `path_relative_from`: the shortest way from one path to another. */
module RelativePath {
  import opened Collections
  import opened Paths
  import opened Wrappers

  predicate IsAbsolute(p: Path) {
    p != [] && p[0].RootDir?
  }

  function Up(n: nat): (p: Path)
    ensures |p| == n && forall i :: 0 <= i < n ==> p[i] == ParentDir
  {
    seq(n, _ => ParentDir)
  }

  /** The loop over both iterators, with what it has pushed so far. */
  function Relate(a: Path, b: Path, comps: Path): Option<Path>
    decreases |a| + |b|
  {
    if a == [] && b == [] then Some(comps)
    else if b == [] then Some(comps + a)
    else if a == [] then Relate([], b[1..], comps + [ParentDir])
    else if comps == [] && a[0] == b[0] then Relate(a[1..], b[1..], comps)
    else if b[0].CurDir? then Relate(a[1..], b[1..], comps + [a[0]])
    else if b[0].ParentDir? then None
    else Some(comps + [ParentDir] + Up(|b| - 1) + a)
  }

  function RelativeFrom(path: Path, base: Path): Option<Path> {
    if IsAbsolute(path) != IsAbsolute(base) then (if IsAbsolute(path) then Some(path) else None)
    else Relate(path, base, [])
  }

  method PathRelativeFrom(path: Path, base: Path) returns (r: Option<Path>)
    ensures r == RelativeFrom(path, base)
  {
    if IsAbsolute(path) != IsAbsolute(base) {
      if IsAbsolute(path) {
        return Some(path);
      }
      return None;
    }
    var i, j, comps: Path := 0, 0, [];
    assert path[0..] == path && base[0..] == base;
    while i < |path| || j < |base|
      invariant i <= |path| && j <= |base|
      invariant Relate(path, base, []) == Relate(path[i..], base[j..], comps)
      decreases |path| + |base| - i - j
    {
      assert i < |path| ==> path[i..][1..] == path[i + 1..];
      assert j < |base| ==> base[j..][1..] == base[j + 1..];
      if j == |base| {
        return Some(comps + path[i..]);
      } else if i == |path| {
        comps, j := comps + [ParentDir], j + 1;
        assert path[i..] == [];
      } else if comps == [] && path[i] == base[j] {
        i, j := i + 1, j + 1;
      } else if base[j].CurDir? {
        comps, i, j := comps + [path[i]], i + 1, j + 1;
      } else if base[j].ParentDir? {
        return None;
      } else {
        ghost var a, b, start := path[i..], base[j..], comps;
        comps, j := comps + [ParentDir], j + 1;
        ghost var k := j;
        while j < |base|
          invariant k <= j <= |base|
          invariant comps == start + [ParentDir] + Up(j - k)
        {
          assert Up(j + 1 - k) == Up(j - k) + [ParentDir];
          comps, j := comps + [ParentDir], j + 1;
        }
        assert j - k == |b| - 1;
        assert [path[i]] + path[i + 1..] == a;
        assert comps + [path[i]] + path[i + 1..] == comps + ([path[i]] + path[i + 1..]);
        return Some(comps + [path[i]] + path[i + 1..]);
      }
    }
    r := Some(comps);
  }

  // -------------------------------------------------------- what it computes

  /** Only names, after a root if the path is absolute. */
  predicate Plain(p: Path) {
    forall i :: 0 <= i < |p| ==> p[i].Normal? || (i == 0 && p[i].RootDir?)
  }

  /** How many leading components two paths share. */
  function Common(a: Path, b: Path): (n: nat)
    ensures n <= |a| && n <= |b| && a[..n] == b[..n]
    ensures n < |a| && n < |b| ==> a[n] != b[n]
  {
    if a == [] || b == [] || a[0] != b[0] then 0 else 1 + Common(a[1..], b[1..])
  }

  lemma {:induction false} RelateParents(b: Path, comps: Path)
    ensures Relate([], b, comps) == Some(comps + Up(|b|))
    decreases |b|
  {
    if b != [] {
      RelateParents(b[1..], comps + [ParentDir]);
      assert comps + [ParentDir] + Up(|b| - 1) == comps + Up(|b|);
    } else {
      assert comps + Up(0) == comps;
    }
  }

  lemma RelateApart(a: Path, b: Path)
    requires a != [] && b != [] && a[0] != b[0] && (b[0].Normal? || b[0].RootDir?)
    ensures Relate(a, b, []) == Some(Up(|b|) + a)
  {
    assert [] + [ParentDir] + Up(|b| - 1) == Up(|b|);
  }

  lemma RelateEnds(a: Path, b: Path)
    ensures a == [] ==> Relate(a, b, []) == Some(Up(|b|) + a)
    ensures b == [] ==> Relate(a, b, []) == Some(Up(|b|) + a)
  {
    RelateParents(b, []);
    assert [] + Up(|b|) == Up(|b|) + [] && [] + a == Up(0) + a;
  }

  /** One `..` for every component of the base after the common ones, then the rest of the path. */
  lemma {:induction false} RelateShape(a: Path, b: Path)
    requires forall i :: 0 <= i < |b| ==> b[i].Normal? || b[i].RootDir?
    ensures Relate(a, b, []) == Some(Up(|b| - Common(a, b)) + a[Common(a, b)..])
    decreases |a|
  {
    assert a[0..] == a;
    if a == [] || b == [] {
      RelateEnds(a, b);
    } else if a[0] == b[0] {
      RelateShape(a[1..], b[1..]);
      DropTwice(a, 1, Common(a[1..], b[1..]));
    } else {
      RelateApart(a, b);
    }
  }

  lemma {:induction false} RelativeFromShape(path: Path, base: Path)
    requires Plain(path) && Plain(base) && IsAbsolute(path) == IsAbsolute(base)
    ensures RelativeFrom(path, base) == Some(Up(|base| - Common(path, base)) + path[Common(path, base)..])
  {
    RelateShape(path, base);
  }

  // -------------------------------------------------------------- walking

  /** Following one component from a directory, without looking at the disk; leaving a
      relative starting point is not possible. */
  function Step(at: Path, c: Component): Option<Path> {
    match c
    case RootDir => Some([RootDir])
    case CurDir => Some(at)
    case Normal(_) => Some(at + [c])
    case ParentDir =>
      if at == [] || at[|at| - 1].CurDir? then None
      else if at[|at| - 1].RootDir? then Some(at)
      else Some(at[..|at| - 1])
  }

  function Walk(at: Path, rel: Path): Option<Path>
    decreases |rel|
  {
    if rel == [] then Some(at)
    else match Step(at, rel[0])
      case None => None
      case Some(next) => Walk(next, rel[1..])
  }

  lemma {:induction false} WalkAppend(at: Path, a: Path, b: Path)
    ensures Walk(at, a + b) == match Walk(at, a) case None => None case Some(next) => Walk(next, b)
    decreases |a|
  {
    if a == [] {
      assert a + b == b;
    } else {
      assert (a + b)[1..] == a[1..] + b;
      match Step(at, a[0])
      case None =>
      case Some(next) => WalkAppend(next, a[1..], b);
    }
  }

  lemma {:induction false} WalkUp(at: Path, n: nat)
    requires n <= |at| && forall i :: |at| - n <= i < |at| ==> at[i].Normal?
    ensures Walk(at, Up(n)) == Some(at[..|at| - n])
    decreases n
  {
    if n > 0 {
      var next := at[..|at| - 1];
      WalkUp(next, n - 1);
      assert Up(n)[1..] == Up(n - 1);
      assert next[..|at| - n] == at[..|at| - n];
    } else {
      assert at[..|at| - n] == at;
    }
  }

  lemma {:induction false} WalkDown(at: Path, names: Path)
    requires forall i :: 0 <= i < |names| ==> names[i].Normal?
    ensures Walk(at, names) == Some(at + names)
    decreases |names|
  {
    if names != [] {
      WalkDown(at + [names[0]], names[1..]);
      assert at + [names[0]] + names[1..] == at + names;
    } else {
      assert at + names == at;
    }
  }

  /** Walking the result from the base arrives at the path. */
  lemma RelativeFromArrives(path: Path, base: Path)
    requires Plain(path) && Plain(base) && IsAbsolute(path) == IsAbsolute(base)
    ensures RelativeFrom(path, base).Some? && Walk(base, RelativeFrom(path, base).value) == Some(path)
  {
    RelativeFromShape(path, base);
    var n := Common(path, base);
    WalkAppend(base, Up(|base| - n), path[n..]);
    WalkUp(base, |base| - n);
    WalkDown(base[..n], path[n..]);
    assert path[..n] + path[n..] == path;
  }

  // ------------------------------------------------------------ minimality

  /** The distance of two paths in the tree of directories. */
  function Distance(a: Path, b: Path): int {
    |a| + |b| - 2 * Common(a, b)
  }

  lemma CommonLargest(a: Path, b: Path, n: nat)
    requires n <= |a| && n <= |b| && a[..n] == b[..n]
    ensures n <= Common(a, b)
  {
    assert forall m :: 0 <= m < n ==> a[m] == a[..n][m] == b[..n][m] == b[m];
  }

  /** One step gets at most one closer. */
  lemma StepMovesOne(at: Path, c: Component, to: Path)
    requires !c.RootDir? && Step(at, c).Some?
    ensures Distance(Step(at, c).value, to) >= Distance(at, to) - 1
  {
    var next := Step(at, c).value;
    var n := Common(next, to);
    if c.Normal? {
      var k := if n <= |at| then n else |at|;
      assert at[..k] == next[..k] && next[..k] == next[..n][..k] && to[..k] == to[..n][..k];
      CommonLargest(at, to, k);
    } else if c.ParentDir? && next != at {
      assert at[..n] == next[..n];
      CommonLargest(at, to, n);
    }
  }

  lemma {:induction false} WalkMovesLength(at: Path, rel: Path, to: Path)
    requires forall i :: 0 <= i < |rel| ==> !rel[i].RootDir?
    requires Walk(at, rel) == Some(to)
    ensures |rel| >= Distance(at, to)
    decreases |rel|
  {
    if rel == [] {
      CommonLargest(to, to, |to|);
    } else {
      StepMovesOne(at, rel[0], to);
      WalkMovesLength(Step(at, rel[0]).value, rel[1..], to);
    }
  }

  /** No other relative path that arrives at the path is shorter. */
  lemma RelativeFromShortest(path: Path, base: Path, rel: Path)
    requires Plain(path) && Plain(base) && IsAbsolute(path) == IsAbsolute(base)
    requires forall i :: 0 <= i < |rel| ==> !rel[i].RootDir?
    requires Walk(base, rel) == Some(path)
    ensures RelativeFrom(path, base).Some? && |RelativeFrom(path, base).value| <= |rel|
  {
    RelativeFromShape(path, base);
    WalkMovesLength(base, rel, path);
    CommonLargest(base, path, Common(path, base));
    CommonLargest(path, base, Common(base, path));
  }

  // ------------------------------------------------------- a base with a dot

  predicate Names(p: Path) {
    forall i :: 0 <= i < |p| ==> p[i].Normal?
  }

  /** Walking `rel` from `base` arrives at `path`, which may be reached as `./path`. */
  predicate Arrives(base: Path, rel: Path, path: Path) {
    Walk(base, rel) == Some(path) || Walk(base, rel) == Some([CurDir] + path)
  }

  /** With a leading `.` in the base, the first name of the path is taken twice for nothing:
      as a step down, and again as what comes after the steps up. */
  lemma RelateAfterDot(a: Path, b: Path, x: Component)
    requires Names(b) && x.Normal?
    ensures Relate(a, b, [x]) == Some([x] + Up(|b|) + a)
  {
    if a == [] {
      RelateParents(b, [x]);
      assert [x] + Up(|b|) + [] == [x] + Up(|b|);
    } else if b == [] {
      assert [x] + Up(0) + a == [x] + a;
    } else {
      assert [x] + [ParentDir] + Up(|b| - 1) == [x] + Up(|b|);
    }
  }

  lemma DotBaseShape(path: Path, b: Path)
    requires Names(path) && Names(b)
    ensures RelativeFrom(path, [CurDir] + b) ==
            Some(if path == [] then Up(1 + |b|) else [path[0]] + Up(|b|) + path[1..])
  {
    var base := [CurDir] + b;
    assert base[1..] == b;
    if path == [] {
      RelateParents(base, []);
      assert [] + Up(1 + |b|) == Up(1 + |b|);
    } else {
      assert [] + [path[0]] == [path[0]];
      RelateAfterDot(path[1..], b, path[0]);
    }
  }

  /** Too many steps up. */
  lemma WalkOut(b: Path)
    requires Names(b)
    ensures Walk([CurDir] + b, Up(1 + |b|)) == None
  {
    var base := [CurDir] + b;
    assert Up(1 + |b|) == Up(|b|) + [ParentDir];
    WalkAppend(base, Up(|b|), [ParentDir]);
    WalkUp(base, |b|);
    assert base[..1] == [CurDir];
  }

  lemma WalkDotBase(path: Path, b: Path)
    requires Names(path) && Names(b) && path != []
    ensures Walk([CurDir] + b, [path[0]] + Up(|b|) + path[1..]) ==
            Some([CurDir] + (if b == [] then path else [b[0]] + path[1..]))
  {
    var base, n := [CurDir] + b, |b|;
    var down := base + [path[0]];
    var turn := [CurDir, if b == [] then path[0] else b[0]];
    Associative([path[0]], Up(n), path[1..]);
    WalkAppend(base, [path[0]], Up(n) + path[1..]);
    WalkDown(base, [path[0]]);
    WalkAppend(down, Up(n), path[1..]);
    WalkUp(down, n);
    TurnsAt(path, b);
    WalkDown(turn, path[1..]);
    Associative([CurDir], [turn[1]], path[1..]);
    assert turn == [CurDir] + [turn[1]];
    assert [path[0]] + path[1..] == path;
  }

  /** As many steps up as the base has names, from one step below it. */
  lemma TurnsAt(path: Path, b: Path)
    requires path != []
    ensures var down := [CurDir] + b + [path[0]];
      down[..|down| - |b|] == [CurDir, if b == [] then path[0] else b[0]]
  {}

  /** From a base that starts with `.`, the result leads to the path exactly if the path is
      not empty and starts with the base's first name, if that has one. */
  lemma DotBaseArrivesIff(path: Path, b: Path)
    requires Names(path) && Names(b)
    ensures RelativeFrom(path, [CurDir] + b).Some?
    ensures Arrives([CurDir] + b, RelativeFrom(path, [CurDir] + b).value, path)
       <==> path != [] && (b == [] || b[0] == path[0])
  {
    DotBaseShape(path, b);
    if path == [] {
      WalkOut(b);
    } else {
      WalkDotBase(path, b);
      var end := if b == [] then path else [b[0]] + path[1..];
      assert end == path <==> b == [] || b[0] == path[0] by {
        assert end[0] == (if b == [] then path[0] else b[0]) && end[1..] == path[1..];
        assert path == [path[0]] + path[1..];
      }
      DotsDiffer(end, path);
    }
  }

  lemma DotsDiffer(p: Path, q: Path)
    requires Names(q)
    ensures [CurDir] + p == [CurDir] + q <==> p == q
    ensures [CurDir] + p != q
  {
    assert ([CurDir] + p)[1..] == p && ([CurDir] + q)[1..] == q;
    assert ([CurDir] + p)[0] == CurDir;
  }
}
