/** `path_relative_from` where it gives up, or does not have to go anywhere. */
module PathsApart {
  import opened Collections
  import opened Wrappers
  import opened Paths
  import opened RelativePath

  lemma {:induction false} StaysAbsolute(at: Path, rel: Path)
    requires IsAbsolute(at)
    ensures Walk(at, rel).Some? ==> IsAbsolute(Walk(at, rel).value)
    decreases |rel|
  {
    if rel != [] && Step(at, rel[0]).Some? {
      StaysAbsolute(Step(at, rel[0]).value, rel[1..]);
    }
  }

  /** An absolute path is its own way from a relative base; from an absolute base there is no
      way to a relative path, and none is given. */
  lemma MixedPaths(path: Path, base: Path, rel: Path)
    requires IsAbsolute(path) != IsAbsolute(base) && RelativePath.Plain(path)
    ensures IsAbsolute(path) ==> RelativeFrom(path, base) == Some(path) && Walk(base, path) == Some(path)
    ensures !IsAbsolute(path) ==> RelativeFrom(path, base) == None && Walk(base, rel) != Some(path)
  {
    if IsAbsolute(path) {
      assert path == [RootDir] + path[1..];
      WalkDown([RootDir], path[1..]);
    } else {
      StaysAbsolute(base, rel);
    }
  }

  lemma {:induction false} RelateSkips(pre: Path, a: Path, b: Path)
    ensures Relate(pre + a, pre + b, []) == Relate(a, b, [])
    decreases |pre|
  {
    if pre == [] {
      assert pre + a == a && pre + b == b;
    } else {
      assert (pre + a)[1..] == pre[1..] + a && (pre + b)[1..] == pre[1..] + b;
      RelateSkips(pre[1..], a, b);
    }
  }

  /** A base that goes up where the path goes down is refused. */
  lemma ParentInBaseIsRefused(pre: Path, x: Component, a: Path, b: Path)
    requires x.Normal?
    requires IsAbsolute(pre + ([x] + a)) == IsAbsolute(pre + ([ParentDir] + b))
    ensures RelativeFrom(pre + ([x] + a), pre + ([ParentDir] + b)) == None
  {
    RelateSkips(pre, [x] + a, [ParentDir] + b);
  }

  /** The way from a path to itself is empty, whatever it consists of. */
  lemma ToItself(path: Path)
    ensures RelativeFrom(path, path) == Some([])
  {
    RelateSkips(path, [], []);
    assert path + [] == path;
  }

  /** The way to a path below is what it has more, whatever that consists of. */
  lemma ToBelow(path: Path, more: Path)
    requires path != []
    ensures RelativeFrom(path + more, path) == Some(more)
  {
    RelateSkips(path, more, []);
    assert path + [] == path && [] + more == more;
    assert (path + more)[0] == path[0];
  }
}
